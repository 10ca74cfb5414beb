/** The string operations of the Python source, with the facts about them that the proofs use. */
module Strings {

  predicate HasSuffix(s: string, p: string) {
    |p| <= |s| && s[|s| - |p|..] == p
  }

  predicate At(s: string, p: string, i: int) {
    0 <= i && i + |p| <= |s| && s[i..i + |p|] == p
  }

  /** `p in s` */
  predicate Contains(s: string, p: string) {
    exists i :: 0 <= i <= |s| && At(s, p, i)
  }

  /** Python slicing past the end is harmless. */
  function Drop(s: string, n: nat): string {
    if n <= |s| then s[n..] else ""
  }

  /** `s.find(c)` */
  function FirstIndex(s: string, c: char): (r: int)
    ensures -1 <= r < |s|
    ensures r >= 0 ==> s[r] == c
    ensures forall i :: 0 <= i < (if r < 0 then |s| else r) ==> s[i] != c
  {
    if s == "" then -1
    else if s[0] == c then 0
    else
      var k := FirstIndex(s[1..], c);
      if k < 0 then -1 else k + 1
  }

  /** `s.rfind(c)` */
  function LastIndex(s: string, c: char): (r: int)
    ensures -1 <= r < |s|
    ensures r >= 0 ==> s[r] == c
    ensures forall i :: r < i < |s| ==> s[i] != c
  {
    if s == "" then -1
    else if s[|s| - 1] == c then |s| - 1
    else LastIndex(s[..|s| - 1], c)
  }

  lemma FirstIndexIs(a: string, c: char, b: string)
    requires c !in a
    ensures FirstIndex(a + [c] + b, c) == |a|
  {
    var s := a + [c] + b;
    assert s[|a|] == c;
    assert forall i :: 0 <= i < |a| ==> s[i] == a[i];
  }

  lemma {:induction false} LastIndexIs(a: string, c: char, b: string)
    requires c !in b
    ensures LastIndex(a + [c] + b, c) == |a|
  {
    var s := a + [c] + b;
    if b != "" {
      assert s[..|s| - 1] == a + [c] + b[..|b| - 1];
      assert s[|s| - 1] == b[|b| - 1];
      LastIndexIs(a, c, b[..|b| - 1]);
    }
  }

  /** `s.replace(a, b)` for single characters */
  function ReplaceChar(s: string, a: char, b: char): string {
    seq(|s|, i requires 0 <= i < |s| => if s[i] == a then b else s[i])
  }

  /** `s.replace(p, "")`: leftmost occurrences first, none overlapping */
  function RemoveAll(s: string, p: string): string
    requires p != ""
  {
    if |s| < |p| then s
    else if p <= s then RemoveAll(s[|p|..], p)
    else [s[0]] + RemoveAll(s[1..], p)
  }

  /** The components of a relative path: split at `/`, empty parts and `.` dropped, as `pathlib` does. */
  function Components(s: string): seq<string> {
    var k := FirstIndex(s, '/');
    if k < 0 then Kept(s) else Kept(s[..k]) + Components(s[k + 1..])
  }

  function Kept(part: string): seq<string> {
    if part == "" || part == "." then [] else [part]
  }

  predicate IsComponent(part: string) {
    '/' !in part && part != "" && part != "."
  }

  /** `"/".join(parts)` */
  function JoinPath(parts: seq<string>): string {
    if parts == [] then ""
    else if |parts| == 1 then parts[0]
    else parts[0] + "/" + JoinPath(parts[1..])
  }

  lemma {:induction false} ComponentsAppend(a: string, b: string)
    ensures Components(a + "/" + b) == Components(a) + Components(b)
    decreases |a|
  {
    hide FirstIndex;
    var s := a + "/" + b;
    var k := FirstIndex(a, '/');
    if k < 0 {
      FirstIndexIs(a, '/', b);
      assert s[..|a|] == a && s[|a| + 1..] == b;
    } else {
      var a1, a2 := a[..k], a[k + 1..];
      assert s == a1 + ['/'] + (a2 + "/" + b);
      FirstIndexIs(a1, '/', a2 + "/" + b);
      assert s[..k] == a1 && s[k + 1..] == a2 + "/" + b;
      ComponentsAppend(a2, b);
    }
  }

  lemma {:induction false} ComponentsAreComponents(s: string)
    ensures forall part :: part in Components(s) ==> IsComponent(part)
    decreases |s|
  {
    var k := FirstIndex(s, '/');
    if k >= 0 { ComponentsAreComponents(s[k + 1..]); }
  }

  lemma {:induction false} ComponentsOfJoin(parts: seq<string>)
    requires forall part :: part in parts ==> IsComponent(part)
    ensures Components(JoinPath(parts)) == parts
  {
    if parts == [] {
      assert Components("") == [];
    } else if |parts| == 1 {
      assert IsComponent(parts[0]);
      assert Components(parts[0]) == [parts[0]];
    } else {
      ComponentsAppend(parts[0], JoinPath(parts[1..]));
      ComponentsOfJoin(parts[1..]);
      assert IsComponent(parts[0]);
      assert Components(parts[0]) == [parts[0]];
      assert parts == [parts[0]] + parts[1..];
    }
  }

  /** Length of the longest prefix whose characters all satisfy `p`. */
  function Run(s: string, p: char -> bool): (n: nat)
    ensures n <= |s|
    ensures forall i :: 0 <= i < n ==> p(s[i])
    ensures n < |s| ==> !p(s[n])
  {
    if s == "" || !p(s[0]) then 0 else 1 + Run(s[1..], p)
  }

  lemma RunIs(a: string, b: string, p: char -> bool)
    requires forall c :: c in a ==> p(c)
    requires b == "" || !p(b[0])
    ensures Run(a + b, p) == |a|
  {
    var s := a + b;
    assert forall i :: 0 <= i < |a| ==> s[i] == a[i] && p(s[i]);
    assert b != "" ==> s[|a|] == b[0];
  }

  function LStrip(s: string, space: char -> bool): string {
    s[Run(s, space)..]
  }

  function RStrip(s: string, space: char -> bool): (r: string)
    ensures r <= s
    ensures r != "" ==> !space(r[|r| - 1])
  {
    if s == "" || !space(s[|s| - 1]) then s else RStrip(s[..|s| - 1], space)
  }

  /** `s.strip()` */
  function Strip(s: string, space: char -> bool): string {
    RStrip(LStrip(s, space), space)
  }

  /** A text that begins and ends with characters to be kept is not stripped. */
  lemma StripKeeps(s: string, space: char -> bool)
    requires s != "" ==> !space(s[0]) && !space(s[|s| - 1])
    ensures Strip(s, space) == s
  {
  }
}

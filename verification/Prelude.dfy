/** Small shared vocabulary: optional values, error results, bytes, and facts about sequences. */
module Prelude {

  datatype Option<+T> = None | Some(value: T)

  datatype Result<+T, +E> = Ok(value: T) | Err(error: E)

  type Byte = b: int | 0 <= b < 256

  type Bytes = seq<Byte>

  function ToSet<T>(s: seq<T>): set<T> {
    set x | x in s
  }

  ghost predicate NoDup<T>(s: seq<T>) {
    forall i, j :: 0 <= i < j < |s| ==> s[i] != s[j]
  }

  /** How a sequence without repetitions grows, shrinks and splits. */
  lemma NoDupAppend<T>(s: seq<T>, t: seq<T>)
    ensures NoDup(s + t) <==> NoDup(s) && NoDup(t) && ToSet(s) !! ToSet(t)
  {
    var st := s + t;
    assert forall i :: 0 <= i < |s| ==> st[i] == s[i] && s[i] in ToSet(s);
    assert forall i :: 0 <= i < |t| ==> st[|s| + i] == t[i] && t[i] in ToSet(t);
    if NoDup(s) && NoDup(t) && ToSet(s) !! ToSet(t) {
      assert forall i, j :: 0 <= i < |s| <= j < |st| ==> st[i] != st[j];
    }
    if NoDup(st) {
      forall i, j | 0 <= i < |s| && 0 <= j < |t| ensures s[i] != t[j] {
        assert st[i] != st[|s| + j];
      }
    }
  }

  lemma ToSetAppend<T>(s: seq<T>, t: seq<T>)
    ensures ToSet(s + t) == ToSet(s) + ToSet(t)
  {
  }

  lemma ToSetOfNothing<T>()
    ensures ToSet<T>([]) == {}
  {
  }

  lemma ToSetSplit<T>(s: seq<T>)
    requires s != []
    ensures ToSet(s) == {s[0]} + ToSet(s[1..])
    ensures ToSet(s) == ToSet(s[..|s| - 1]) + {s[|s| - 1]}
  {
    assert s == [s[0]] + s[1..];
    assert s == s[..|s| - 1] + [s[|s| - 1]];
  }
}

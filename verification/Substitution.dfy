/** ARG substitution in FROM lines: the regular-expression scanner and its meaning on templates. */
module Substitution {
  import opened Prelude
  import opened Strings

  /** Pre-FROM ARG values (None: declared without a default) and command-line overrides. */
  datatype Env = Env(args: map<string, Option<string>>, buildArgs: map<string, string>)

  datatype SubstError = Undefined(name: string) | NoValue(name: string)

  datatype Piece =
    | Lit(text: string)
    | Bare(name: string)                          // $NAME
    | Braced(name: string)                        // ${NAME}
    | Default(name: string, fallback: string)     // ${NAME:-fallback}
    | Alternate(name: string, fallback: string)   // ${NAME:+fallback}

  /** The word characters of the pattern; none of its own punctuation is one. */
  ghost predicate WordClass(word: char -> bool) {
    forall c :: c in "${}:-+" ==> !word(c)
  }

  /** What the pattern matches at the start of `s`, and how many characters that takes. */
  function MatchAt(s: string, word: char -> bool): (m: Option<(Piece, nat)>)
    ensures m.Some? ==> 0 < m.value.1 <= |s| && s[0] == '$'
  {
    if s == "" || s[0] != '$' then None
    else if |s| > 1 && s[1] == '{' then MatchBraced(s, word)
    else
      var n := Run(s[1..], word);
      if n == 0 then None else Some((Bare(s[1..1 + n]), 1 + n))
  }

  function MatchBraced(s: string, word: char -> bool): (m: Option<(Piece, nat)>)
    requires |s| > 1 && s[..2] == "${"
    ensures m.Some? ==> 0 < m.value.1 <= |s|
  {
    var n := Run(s[2..], word);
    if n == 0 then None else AfterName(s[2..2 + n], s[2 + n..])
  }

  /** The rest of a braced match, once `${NAME` is consumed. */
  function AfterName(name: string, rest: string): (m: Option<(Piece, nat)>)
    ensures m.Some? ==> rest != "" && m.value.1 <= 2 + |name| + |rest|
  {
    if rest == "" then None
    else if rest[0] == '}' then Some((Braced(name), |name| + 3))
    else if |rest| > 1 && rest[0] == ':' && (rest[1] == '-' || rest[1] == '+') then
      var close := FirstIndex(rest[2..], '}');
      if close < 0 then None
      else
        var fallback := rest[2..2 + close];
        Some((if rest[1] == '-' then Default(name, fallback) else Alternate(name, fallback), |name| + close + 5))
    else None
  }

  /** `build_args.get(var, args.get(var))` */
  function Lookup(name: string, env: Env): Option<string> {
    if name in env.buildArgs then Some(env.buildArgs[name])
    else if name in env.args then env.args[name]
    else None
  }

  /** The replacement callback for one match. */
  function Replacement(p: Piece, env: Env): Result<string, SubstError> {
    match p
    case Lit(text) => Ok(text)
    case Bare(name) => Plain(name, env)
    case Braced(name) => Plain(name, env)
    case Default(name, fallback) =>
      var v := Lookup(name, env);
      Ok(if v.None? || v.value == "" then fallback else v.value)
    case Alternate(name, fallback) =>
      var v := Lookup(name, env);
      Ok(if v.Some? && v.value != "" then fallback else "")
  }

  function Plain(name: string, env: Env): Result<string, SubstError> {
    if name in env.buildArgs then Ok(env.buildArgs[name])
    else if name !in env.args then Err(Undefined(name))
    else if env.args[name].None? then Err(NoValue(name))
    else Ok(env.args[name].value)
  }

  function Prepend(head: Result<string, SubstError>, tail: Result<string, SubstError>): Result<string, SubstError> {
    if head.Err? then head
    else if tail.Err? then tail
    else Ok(head.value + tail.value)
  }

  /** The scanner: leftmost matches are replaced, everything else is copied, nothing is looked at twice. */
  function Substitute(s: string, env: Env, word: char -> bool): Result<string, SubstError>
    decreases |s|
  {
    if s == "" then Ok("")
    else match MatchAt(s, word)
      case None => Prepend(Ok(s[..1]), Substitute(s[1..], env, word))
      case Some((p, n)) => Prepend(Replacement(p, env), Substitute(s[n..], env, word))
  }

  // --- templates ---

  function PrintPiece(p: Piece): string {
    match p
    case Lit(text) => text
    case Bare(name) => "$" + name
    case Braced(name) => "${" + name + "}"
    case Default(name, fallback) => "${" + name + ":-" + fallback + "}"
    case Alternate(name, fallback) => "${" + name + ":+" + fallback + "}"
  }

  function Print(t: seq<Piece>): string {
    if t == [] then "" else PrintPiece(t[0]) + Print(t[1..])
  }

  /** Direct evaluation of a template, left to right, the first failing reference winning. */
  function Eval(t: seq<Piece>, env: Env): Result<string, SubstError> {
    if t == [] then Ok("") else Prepend(Replacement(t[0], env), Eval(t[1..], env))
  }

  predicate IsName(name: string, word: char -> bool) {
    name != "" && forall c :: c in name ==> word(c)
  }

  /** Literals are free of `$`, names are words, fallbacks are free of `}`, and no word character directly
      follows a bare reference. */
  predicate WellFormed(t: seq<Piece>, word: char -> bool) {
    t != [] ==>
      (match t[0]
       case Lit(text) => '$' !in text
       case Bare(name) => IsName(name, word) && (Print(t[1..]) == "" || !word(Print(t[1..])[0]))
       case Braced(name) => IsName(name, word)
       case Default(name, fallback) => IsName(name, word) && '}' !in fallback
       case Alternate(name, fallback) => IsName(name, word) && '}' !in fallback) &&
      WellFormed(t[1..], word)
  }

  /** The reading of a text as a template. It does not see the environment. */
  function Scan(s: string, word: char -> bool): seq<Piece>
    decreases |s|
  {
    if s == "" then []
    else match MatchAt(s, word)
      case None => [Lit(s[..1])] + Scan(s[1..], word)
      case Some((p, n)) => [p] + Scan(s[n..], word)
  }

  predicate Faulty(p: Piece, env: Env) {
    (p.Bare? || p.Braced?) && p.name !in env.buildArgs && (p.name !in env.args || env.args[p.name].None?)
  }

  // --- scanning is single pass and means evaluation ---

  lemma FallbackPrints(name: string, rest: string, close: nat)
    requires |rest| >= 2 && close < |rest| - 2 && rest[2 + close] == '}'
    ensures "${" + name + rest[..2] + rest[2..2 + close] + "}" == ("${" + name + rest)[..|name| + close + 5]
  {
    assert rest == rest[..2] + rest[2..2 + close] + "}" + rest[3 + close..];
    assert "${" + name + rest == ("${" + name + rest[..2] + rest[2..2 + close] + "}") + rest[3 + close..];
  }

  lemma AfterNamePrints(name: string, rest: string)
    requires AfterName(name, rest).Some?
    ensures var (p, n) := AfterName(name, rest).value; n <= |"${" + name + rest| && PrintPiece(p) == ("${" + name + rest)[..n]
  {
    if rest[0] == '}' {
      assert rest == "}" + rest[1..];
      assert "${" + name + rest == ("${" + name + "}") + rest[1..];
    } else {
      var close := FirstIndex(rest[2..], '}');
      assert rest[2..][close] == rest[2 + close];
      FallbackPrints(name, rest, close);
      assert rest[..2] == [':', rest[1]];
    }
  }

  lemma MatchBracedPrints(s: string, word: char -> bool)
    requires |s| > 1 && s[..2] == "${" && MatchBraced(s, word).Some?
    ensures var (p, n) := MatchBraced(s, word).value; PrintPiece(p) == s[..n]
  {
    hide Run, AfterName, PrintPiece;
    var n := Run(s[2..], word);
    var name, rest := s[2..2 + n], s[2 + n..];
    assert s == "${" + name + rest;
    AfterNamePrints(name, rest);
  }

  lemma MatchPrints(s: string, word: char -> bool)
    requires MatchAt(s, word).Some?
    ensures var (p, n) := MatchAt(s, word).value; PrintPiece(p) == s[..n]
  {
    if |s| > 1 && s[1] == '{' {
      assert s[..2] == "${";
      MatchBracedPrints(s, word);
    }
  }

  /** Every text is the print of the template read from it: nothing is lost or invented. */
  lemma {:induction false} ScanPrints(s: string, word: char -> bool)
    ensures Print(Scan(s, word)) == s
    decreases |s|
  {
    if s != "" {
      match MatchAt(s, word)
      case None =>
        ScanPrints(s[1..], word);
        assert Scan(s, word)[1..] == Scan(s[1..], word);
      case Some((p, n)) =>
        MatchPrints(s, word);
        ScanPrints(s[n..], word);
        assert Scan(s, word)[1..] == Scan(s[n..], word);
    }
  }

  /** For every text the scanner is: read it once as a template, then evaluate. Inserted values are never
      rescanned, since the reading does not depend on the environment. */
  lemma {:induction false} SubstituteIsEvalOfScan(s: string, env: Env, word: char -> bool)
    ensures Substitute(s, env, word) == Eval(Scan(s, word), env)
    decreases |s|
  {
    if s != "" {
      match MatchAt(s, word)
      case None =>
        SubstituteIsEvalOfScan(s[1..], env, word);
        assert Scan(s, word)[1..] == Scan(s[1..], word);
      case Some((p, n)) =>
        SubstituteIsEvalOfScan(s[n..], env, word);
        assert Scan(s, word)[1..] == Scan(s[n..], word);
    }
  }

  /** Evaluation fails exactly when some plain reference has no value, and reports the leftmost such one. */
  lemma {:induction false} EvalFailsIff(t: seq<Piece>, env: Env)
    ensures Eval(t, env).Err? <==> exists i :: 0 <= i < |t| && Faulty(t[i], env)
    ensures Eval(t, env).Err? ==>
              exists i :: 0 <= i < |t| && Faulty(t[i], env) && Eval(t, env).error.name == t[i].name &&
                          (Eval(t, env).error.Undefined? <==> t[i].name !in env.args) &&
                          forall j :: 0 <= j < i ==> !Faulty(t[j], env)
  {
    if t != [] {
      EvalFailsIff(t[1..], env);
      assert forall i :: 0 <= i < |t| - 1 ==> t[1..][i] == t[i + 1];
      if !Faulty(t[0], env) && Eval(t[1..], env).Err? {
        var i :| 0 <= i < |t| - 1 && Faulty(t[1..][i], env) && Eval(t[1..], env).error.name == t[1..][i].name &&
                 (Eval(t[1..], env).error.Undefined? <==> t[1..][i].name !in env.args) &&
                 forall j :: 0 <= j < i ==> !Faulty(t[1..][j], env);
        forall j | 0 <= j < i + 1 ensures !Faulty(t[j], env) {
          if j > 0 { assert !Faulty(t[1..][j - 1], env); }
        }
        assert Faulty(t[i + 1], env);
      }
    }
  }

  /** The two together: a FROM text is rejected exactly for an undefined or valueless plain reference in it. */
  lemma SubstituteFailsIff(s: string, env: Env, word: char -> bool)
    ensures Substitute(s, env, word).Err? <==> exists p :: p in Scan(s, word) && Faulty(p, env)
  {
    SubstituteIsEvalOfScan(s, env, word);
    EvalFailsIff(Scan(s, word), env);
  }

  // --- printing a template and scanning it ---

  lemma PrependAssociates(a: string, b: string, r: Result<string, SubstError>)
    ensures Prepend(Ok(a), Prepend(Ok(b), r)) == Prepend(Ok(a + b), r)
  {
    if r.Ok? { assert a + (b + r.value) == a + b + r.value; }
  }

  lemma CopyStep(c: char, rest: string, env: Env, word: char -> bool)
    requires c != '$'
    ensures Substitute([c] + rest, env, word) == Prepend(Ok([c]), Substitute(rest, env, word))
  {
    var s := [c] + rest;
    assert MatchAt(s, word) == None;
    assert s[..1] == [c] && s[1..] == rest;
  }

  lemma {:induction false} LiteralIsCopied(text: string, rest: string, env: Env, word: char -> bool)
    requires '$' !in text
    ensures Substitute(text + rest, env, word) == Prepend(Ok(text), Substitute(rest, env, word))
    decreases |text|
  {
    if text == "" {
      assert text + rest == rest;
      var r := Substitute(rest, env, word);
      assert r.Ok? ==> "" + r.value == r.value;
    } else {
      assert text + rest == [text[0]] + (text[1..] + rest);
      CopyStep(text[0], text[1..] + rest, env, word);
      LiteralIsCopied(text[1..], rest, env, word);
      PrependAssociates([text[0]], text[1..], Substitute(rest, env, word));
      assert [text[0]] + text[1..] == text;
    }
  }

  lemma MatchOfBare(name: string, rest: string, word: char -> bool)
    requires WordClass(word) && IsName(name, word) && (rest == "" || !word(rest[0]))
    ensures MatchAt("$" + name + rest, word) == Some((Bare(name), 1 + |name|))
  {
    var s := "$" + name + rest;
    assert s[1..] == name + rest;
    RunIs(name, rest, word);
    assert s[1] == name[0];
    assert '{' in "${}:-+";
    assert s[1..1 + |name|] == name;
  }

  lemma BracedParts(name: string, tail: string, word: char -> bool)
    requires WordClass(word) && IsName(name, word) && tail != "" && tail[0] in "}:"
    ensures var s := "${" + name + tail;
            s[..2] == "${" && Run(s[2..], word) == |name| && s[2..2 + |name|] == name && s[2 + |name|..] == tail
  {
    var s := "${" + name + tail;
    assert s[2..] == name + tail;
    assert tail[0] in "${}:-+";
    RunIs(name, tail, word);
  }

  lemma MatchGoesOnAfterName(name: string, tail: string, word: char -> bool)
    requires WordClass(word) && IsName(name, word) && tail != "" && tail[0] in "}:"
    ensures MatchAt("${" + name + tail, word) == AfterName(name, tail)
  {
    BracedParts(name, tail, word);
  }

  lemma MatchOfBraced(name: string, rest: string, word: char -> bool)
    requires WordClass(word) && IsName(name, word)
    ensures MatchAt("${" + name + "}" + rest, word) == Some((Braced(name), |name| + 3))
  {
    MatchGoesOnAfterName(name, "}" + rest, word);
    assert "${" + name + "}" + rest == "${" + name + ("}" + rest);
  }

  lemma FallbackParts(op: string, fallback: string, rest: string)
    requires |op| == 2 && '}' !in fallback
    ensures var tail := op + fallback + "}" + rest;
            tail[0] == op[0] && tail[1] == op[1] &&
            FirstIndex(tail[2..], '}') == |fallback| && tail[2..2 + |fallback|] == fallback
  {
    var tail := op + fallback + "}" + rest;
    assert tail[2..] == fallback + ['}'] + rest;
    FirstIndexIs(fallback, '}', rest);
  }

  lemma FallbackAfterName(p: Piece, op: string, rest: string)
    requires (p.Default? || p.Alternate?) && '}' !in p.fallback
    requires op == if p.Default? then ":-" else ":+"
    ensures AfterName(p.name, op + p.fallback + "}" + rest) == Some((p, |p.name| + |p.fallback| + 5))
  {
    FallbackParts(op, p.fallback, rest);
  }

  lemma FallbackText(name: string, op: string, fallback: string, rest: string)
    requires |op| == 2
    ensures var tail := op + fallback + "}" + rest;
            "${" + name + op + fallback + "}" + rest == "${" + name + tail && tail != "" && tail[0] == op[0]
  {
    assert "${" + name + op + fallback + "}" + rest == "${" + name + (op + fallback + "}" + rest);
  }

  lemma MatchOfFallback(p: Piece, op: string, rest: string, word: char -> bool)
    requires WordClass(word) && (p.Default? || p.Alternate?) && IsName(p.name, word) && '}' !in p.fallback
    requires op == if p.Default? then ":-" else ":+"
    ensures MatchAt("${" + p.name + op + p.fallback + "}" + rest, word) == Some((p, |p.name| + |p.fallback| + 5))
  {
    hide MatchAt, AfterName, WordClass, IsName;
    FallbackText(p.name, op, p.fallback, rest);
    FallbackAfterName(p, op, rest);
    MatchGoesOnAfterName(p.name, op + p.fallback + "}" + rest, word);
  }

  lemma PrintedLength(p: Piece)
    ensures p.Bare? ==> |PrintPiece(p)| == 1 + |p.name|
    ensures p.Braced? ==> |PrintPiece(p)| == |p.name| + 3
    ensures p.Default? || p.Alternate? ==> |PrintPiece(p)| == |p.name| + |p.fallback| + 5
  {
  }

  lemma FallbackIsMatched(p: Piece, rest: string, word: char -> bool)
    requires WordClass(word) && (p.Default? || p.Alternate?) && IsName(p.name, word) && '}' !in p.fallback
    ensures MatchAt(PrintPiece(p) + rest, word) == Some((p, |p.name| + |p.fallback| + 5))
  {
    hide MatchAt;
    var op := if p.Default? then ":-" else ":+";
    assert PrintPiece(p) == "${" + p.name + op + p.fallback + "}";
    MatchOfFallback(p, op, rest, word);
  }

  /** One template piece: the scanner matches it whole and goes on behind it. */
  lemma PieceIsMatched(p: Piece, rest: string, word: char -> bool)
    requires WordClass(word) && !p.Lit? && IsName(p.name, word)
    requires p.Bare? ==> rest == "" || !word(rest[0])
    requires p.Default? || p.Alternate? ==> '}' !in p.fallback
    ensures MatchAt(PrintPiece(p) + rest, word) == Some((p, |PrintPiece(p)|))
  {
    PrintedLength(p);
    hide MatchAt;
    match p
    case Bare(name) => MatchOfBare(name, rest, word);
    case Braced(name) => MatchOfBraced(name, rest, word);
    case Default(_, _) => FallbackIsMatched(p, rest, word);
    case Alternate(_, _) => FallbackIsMatched(p, rest, word);
  }

  /** Printing a template and scanning the result is evaluating the template, for every environment. */
  lemma {:induction false} SubstitutePrintIsEval(t: seq<Piece>, env: Env, word: char -> bool)
    requires WordClass(word) && WellFormed(t, word)
    ensures Substitute(Print(t), env, word) == Eval(t, env)
    decreases |t|
  {
    if t != [] {
      var rest := Print(t[1..]);
      var s := Print(t);
      SubstitutePrintIsEval(t[1..], env, word);
      if t[0].Lit? {
        LiteralIsCopied(t[0].text, rest, env, word);
      } else {
        PieceIsMatched(t[0], rest, word);
        assert s[|PrintPiece(t[0])|..] == rest;
      }
    }
  }
}

/** The sixteen-word mnemonic: 128 bits of entropy with a checksum in twelve words, 44 bits of salt in four. */
module Mnemonic {
  import opened Prelude
  import opened Strings

  const BASE := 2048
  const WORDS := 12
  const SALT_WORDS := 4

  datatype MnemonicError = LegacyTwelveWords | WrongWordCount(count: nat) | UnknownWord(word: string)

  function Pow(b: nat, n: nat): (r: nat)
    ensures b > 0 ==> r > 0
  {
    if n == 0 then 1 else b * Pow(b, n - 1)
  }

  /** `[(value >> (11 * (n - 1 - i))) & 0x7FF for i in range(n)]` */
  function Digits(value: nat, n: nat): seq<nat> {
    seq(n, i requires 0 <= i < n => value / Pow(BASE, n - 1 - i) % BASE)
  }

  /** `value = (value << 11) | idx`, from the left; the shifted value has its low bits clear. */
  function Fold(digits: seq<nat>): nat {
    if digits == [] then 0 else Fold(digits[..|digits| - 1]) * BASE + digits[|digits| - 1]
  }

  /** `int.from_bytes(bytes, "big")` */
  function FromBytes(bytes: Bytes): nat {
    if bytes == [] then 0 else FromBytes(bytes[..|bytes| - 1]) * 256 + bytes[|bytes| - 1]
  }

  /** `value.to_bytes(n, "big")` for a value that fits. */
  function ToBytes(value: nat, n: nat): (r: Bytes)
    requires value < Pow(256, n)
    ensures |r| == n
  {
    if n == 0 then []
    else
      DivideBound(value, 256, n);
      ToBytes(value / 256, n - 1) + [value % 256]
  }

  lemma DivideBound(value: nat, b: nat, n: nat)
    requires b > 0 && n > 0 && value < Pow(b, n)
    ensures value / b < Pow(b, n - 1)
  {
    var q := value / b;
    if q >= Pow(b, n - 1) {
      MulMono(b, Pow(b, n - 1), q);
    }
  }

  lemma MulMono(b: nat, x: nat, y: nat)
    requires x <= y
    ensures b * x <= b * y
  {
  }

  /** Dividing twice is dividing by the product, and the remainders combine. */
  lemma DivDiv(value: nat, b: nat, p: nat, d: nat)
    requires b > 0 && p > 0 && d == b * p
    ensures d > 0 && value / d == value / b / p && value % d == b * (value / b % p) + value % b
  {
    MulPos(b, p);
    var q, r := Divide(value, b);
    var q2, r2 := Divide(q, p);
    var rem := Recompose(value, b, p, d, q, r, q2, r2);
    UniqueQuotient(value, d, q2, rem);
  }

  lemma Divide(value: nat, b: nat) returns (q: nat, r: nat)
    requires b > 0
    ensures q == value / b && r == value % b && value == b * q + r && r < b
  {
    q, r := value / b, value % b;
  }

  lemma Recompose(value: nat, b: nat, p: nat, d: nat, q: nat, r: nat, q2: nat, r2: nat) returns (rem: nat)
    requires d == b * p && value == b * q + r && q == p * q2 + r2 && r2 < p && r < b
    ensures value == d * q2 + rem && rem == b * r2 + r && rem < d
  {
    rem := b * r2 + r;
    Distribute(b, p, q2, r2);
    RemainderBound(b, p, r2, r);
  }

  lemma RemainderBound(b: nat, p: nat, r2: nat, r: nat)
    requires r2 < p && r < b
    ensures b * r2 + r < b * p
  {
    MulMono(b, r2 + 1, p);
    assert b * (r2 + 1) == b * r2 + b;
  }

  lemma MulPos(b: nat, p: nat)
    requires b > 0 && p > 0
    ensures b * p > 0
  {
  }

  lemma Distribute(b: nat, p: nat, q: nat, r: nat)
    ensures b * (p * q + r) == b * p * q + b * r
  {
  }

  lemma UniqueQuotient(value: nat, d: nat, q: nat, r: nat)
    requires d > 0 && value == d * q + r && r < d
    ensures value / d == q && value % d == r
  {
    var q1, r1 := value / d, value % d;
    assert value == d * q1 + r1;
    if q1 > q { MulMono(d, q + 1, q1); }
    if q1 < q { MulMono(d, q1 + 1, q); }
  }

  // --- base-2048 digits ---

  lemma DigitsStep(value: nat, n: nat)
    requires n > 0
    ensures Digits(value, n) == Digits(value / BASE, n - 1) + [value % BASE]
  {
    forall i | 0 <= i < n - 1 ensures Digits(value, n)[i] == Digits(value / BASE, n - 1)[i] {
      DivDiv(value, BASE, Pow(BASE, n - 2 - i), Pow(BASE, n - 1 - i));
    }
    assert Pow(BASE, 0) == 1;
    assert Digits(value, n)[n - 1] == value % BASE;
  }

  /** Splitting into n digits and folding back keeps exactly the low 11n bits. */
  lemma {:induction false} FoldOfDigits(value: nat, n: nat)
    ensures Fold(Digits(value, n)) == value % Pow(BASE, n)
  {
    if n > 0 {
      DigitsStep(value, n);
      var rest := Digits(value / BASE, n - 1);
      FoldOfDigits(value / BASE, n - 1);
      assert Digits(value, n)[..n - 1] == rest;
      DivDiv(value, BASE, Pow(BASE, n - 1), Pow(BASE, n));
    }
  }

  predicate AreDigits(digits: seq<nat>) {
    forall k :: 0 <= k < |digits| ==> digits[k] < BASE
  }

  /** Folding digits and splitting the result gives the digits back, and the fold fits. */
  lemma {:induction false} DigitsOfFold(digits: seq<nat>)
    requires AreDigits(digits)
    ensures Digits(Fold(digits), |digits|) == digits
    ensures Fold(digits) < Pow(BASE, |digits|)
  {
    var n := |digits|;
    if n > 0 {
      var rest, last := digits[..n - 1], digits[n - 1];
      DigitsOfFold(rest);
      UniqueQuotient(Fold(digits), BASE, Fold(rest), last);
      DigitsStep(Fold(digits), n);
      RemainderBound(BASE, Pow(BASE, n - 1), Fold(rest), last);
      assert digits == rest + [last];
    }
  }

  // --- bytes ---

  lemma {:induction false} BytesFit(bytes: Bytes)
    ensures FromBytes(bytes) < Pow(256, |bytes|)
  {
    if bytes != [] {
      BytesFit(bytes[..|bytes| - 1]);
      RemainderBound(256, Pow(256, |bytes| - 1), FromBytes(bytes[..|bytes| - 1]), bytes[|bytes| - 1]);
    }
  }

  lemma {:induction false} FromBytesInjective(a: Bytes, b: Bytes)
    requires |a| == |b| && FromBytes(a) == FromBytes(b)
    ensures a == b
  {
    if a != [] {
      var n := |a| - 1;
      UniqueQuotient(FromBytes(a), 256, FromBytes(a[..n]), a[n]);
      UniqueQuotient(FromBytes(b), 256, FromBytes(b[..n]), b[n]);
      FromBytesInjective(a[..n], b[..n]);
      assert a == a[..n] + [a[n]] && b == b[..n] + [b[n]];
    }
  }

  // --- words ---

  /** A raw SHA-256 digest function. */
  ghost predicate IsDigest(digest: Bytes -> Bytes) {
    forall b :: |digest(b)| == 32
  }

  /** A word list: 2048 distinct words without white space. */
  ghost predicate IsWordList(list: seq<string>, space: char -> bool) {
    && |list| == BASE
    && NoDup(list)
    && space(' ')
    && forall w :: w in list ==> IsWord(w, space)
  }

  predicate IsWord(w: string, space: char -> bool) {
    w != "" && forall c :: c in w ==> !space(c)
  }

  /** 128 entropy bits, then the first four bits of their hash, in 11-bit groups. */
  function EntropyToIndices(entropy: Bytes, digest: Bytes -> Bytes): seq<nat>
    requires digest(entropy) != []
  {
    Digits(FromBytes(entropy) * 16 + digest(entropy)[0] / 16, WORDS)
  }

  function SaltToIndices(salt: Bytes): seq<nat> {
    Digits(FromBytes(salt), SALT_WORDS)
  }

  function WordsAt(indices: seq<nat>, list: seq<string>): seq<string>
    requires |list| == BASE && AreDigits(indices)
  {
    seq(|indices|, k requires 0 <= k < |indices| => list[indices[k]])
  }

  function JoinWords(words: seq<string>): string {
    if words == [] then ""
    else if |words| == 1 then words[0]
    else words[0] + " " + JoinWords(words[1..])
  }

  /** `s.split()` */
  function SplitWords(s: string, space: char -> bool): seq<string>
    decreases |s|
  {
    var t := LStrip(s, space);
    if t == "" then []
    else
      var n := Run(t, c => !space(c));
      [t[..n]] + SplitWords(t[n..], space)
  }

  function MnemonicWords(entropy: Bytes, salt: Bytes, list: seq<string>, digest: Bytes -> Bytes): seq<string>
    requires |list| == BASE && digest(entropy) != []
  {
    WordsAt(EntropyToIndices(entropy, digest) + SaltToIndices(salt), list)
  }

  function GenerateMnemonic(entropy: Bytes, salt: Bytes, list: seq<string>, digest: Bytes -> Bytes): string
    requires |list| == BASE && digest(entropy) != []
  {
    JoinWords(MnemonicWords(entropy, salt, list, digest))
  }

  /** The position of a word in the list. */
  function IndexOf(w: string, list: seq<string>): (k: nat)
    requires w in list
    ensures k < |list| && list[k] == w
  {
    if list[0] == w then 0 else 1 + IndexOf(w, list[1..])
  }

  function IndicesOf(words: seq<string>, list: seq<string>): (r: seq<nat>)
    requires forall w :: w in words ==> w in list
    ensures |r| == |words| && forall k :: 0 <= k < |r| ==> r[k] < |list| && list[r[k]] == words[k]
  {
    seq(|words|, k requires 0 <= k < |words| => IndexOf(words[k], list))
  }

  /** What splitting has to return: the secret part and the hash of the six salt bytes. */
  ghost function SplitResult(mnemonic: string, list: seq<string>, space: char -> bool, digest: Bytes -> Bytes)
    : Result<(string, Bytes), MnemonicError>
    requires IsWordList(list, space)
  {
    var words := SplitWords(Strip(mnemonic, space), space);
    if |words| == WORDS then Err(LegacyTwelveWords)
    else if |words| != WORDS + SALT_WORDS then Err(WrongWordCount(|words|))
    else if exists w :: w in words[WORDS..] && w !in list then
      Err(UnknownWord(FirstUnknown(words[WORDS..], list)))
    else
      var value := Fold(IndicesOf(words[WORDS..], list));
      SaltFits(IndicesOf(words[WORDS..], list));
      Ok((JoinWords(words[..WORDS]), digest(ToBytes(value, 6))))
  }

  function FirstUnknown(words: seq<string>, list: seq<string>): string
    requires exists w :: w in words && w !in list
  {
    if words[0] !in list then words[0] else FirstUnknown(words[1..], list)
  }

  /** Four 11-bit digits fit into six bytes. */
  lemma SaltFits(indices: seq<nat>)
    requires |indices| == SALT_WORDS && AreDigits(indices)
    ensures Fold(indices) < Pow(256, 6)
  {
    DigitsOfFold(indices);
    assert Pow(BASE, 4) == 17592186044416;
    assert Pow(256, 6) == 281474976710656;
  }

  method SplitMnemonic(mnemonic: string, list: seq<string>, space: char -> bool, digest: Bytes -> Bytes)
    returns (r: Result<(string, Bytes), MnemonicError>)
    requires IsWordList(list, space)
    ensures r == SplitResult(mnemonic, list, space, digest)
  {
    hide SplitWords, Strip, JoinWords, ToBytes, Pow, IsWord, IndexOf;
    var words := SplitWords(Strip(mnemonic, space), space);
    if |words| == WORDS {
      return Err(LegacyTwelveWords);
    }
    if |words| != WORDS + SALT_WORDS {
      return Err(WrongWordCount(|words|));
    }
    var wordToIndex: map<string, nat> := map[];
    for i := 0 to |list|
      invariant wordToIndex.Keys == ToSet(list[..i])
      invariant forall w :: w in wordToIndex ==> wordToIndex[w] < i && list[wordToIndex[w]] == w
    {
      assert list[..i + 1] == list[..i] + [list[i]];
      wordToIndex := wordToIndex[list[i] := i];
    }
    assert list[..|list|] == list;
    var saltWords := words[WORDS..];
    var saltIndices: seq<nat> := [];
    for k := 0 to |saltWords|
      invariant |saltIndices| == k
      invariant forall j :: 0 <= j < k ==> saltWords[j] in list && saltIndices[j] == IndexOf(saltWords[j], list)
    {
      if saltWords[k] !in wordToIndex {
        FirstUnknownIs(saltWords, list, k);
        return Err(UnknownWord(saltWords[k]));
      }
      saltIndices := saltIndices + [wordToIndex[saltWords[k]]];
    }
    assert saltIndices == IndicesOf(saltWords, list);
    var value: nat := 0;
    for k := 0 to |saltIndices|
      invariant value == Fold(saltIndices[..k])
    {
      assert saltIndices[..k + 1][..k] == saltIndices[..k];
      value := value * BASE + saltIndices[k];
    }
    assert saltIndices[..|saltIndices|] == saltIndices;
    SaltFits(saltIndices);
    return Ok((JoinWords(words[..WORDS]), digest(ToBytes(value, 6))));
  }

  lemma {:induction false} FirstUnknownIs(words: seq<string>, list: seq<string>, k: nat)
    requires k < |words| && words[k] !in list
    requires forall j :: 0 <= j < k ==> words[j] in list
    ensures FirstUnknown(words, list) == words[k]
  {
    if k > 0 {
      assert words[1..][k - 1] == words[k];
      FirstUnknownIs(words[1..], list, k - 1);
    }
  }

  // --- generating, then splitting ---

  lemma JoinIsTrimmed(words: seq<string>, space: char -> bool)
    requires words != [] && forall w :: w in words ==> IsWord(w, space)
    ensures var s := JoinWords(words); s != "" && !space(s[0]) && !space(s[|s| - 1])
    ensures Strip(JoinWords(words), space) == JoinWords(words)
    decreases |words|
  {
    var w := words[0];
    assert w in words;
    assert w[0] in w && w[|w| - 1] in w;
    if |words| > 1 { JoinIsTrimmed(words[1..], space); }
  }

  lemma SplitOffWord(w: string, tail: string, space: char -> bool)
    requires IsWord(w, space) && (tail == "" || space(tail[0]))
    ensures SplitWords(w + tail, space) == [w] + SplitWords(tail, space)
  {
    var s := w + tail;
    assert s[0] == w[0] && w[0] in w;
    assert LStrip(s, space) == s;
    RunIs(w, tail, c => !space(c));
    assert s[..|w|] == w && s[|w|..] == tail;
  }

  lemma SkipSpace(s: string, space: char -> bool)
    requires space(' ')
    ensures SplitWords(" " + s, space) == SplitWords(s, space)
  {
    var t := " " + s;
    assert t[1..] == s;
    assert LStrip(t, space) == t[1 + Run(s, space)..] == LStrip(s, space);
  }

  /** Splitting the joined words gives the words back. */
  lemma {:induction false} SplitOfJoin(words: seq<string>, space: char -> bool)
    requires space(' ') && forall w :: w in words ==> IsWord(w, space)
    ensures SplitWords(JoinWords(words), space) == words
    decreases |words|
  {
    if words != [] {
      var tail := if |words| == 1 then "" else " " + JoinWords(words[1..]);
      assert JoinWords(words) == words[0] + tail;
      SplitOffWord(words[0], tail, space);
      SplitOfJoin(words[1..], space);
      if |words| > 1 { SkipSpace(JoinWords(words[1..]), space); }
      assert words == [words[0]] + words[1..];
    }
  }

  lemma {:induction false} IndexIsUnique(list: seq<string>, k: nat)
    requires k < |list| && NoDup(list)
    ensures IndexOf(list[k], list) == k
  {
  }

  lemma IndicesOfWordsAt(indices: seq<nat>, list: seq<string>)
    requires NoDup(list) && |list| == BASE && AreDigits(indices)
    ensures forall w :: w in WordsAt(indices, list) ==> w in list
    ensures IndicesOf(WordsAt(indices, list), list) == indices
  {
    forall k | 0 <= k < |indices| ensures IndexOf(list[indices[k]], list) == indices[k] {
      IndexIsUnique(list, indices[k]);
    }
  }

  /** Splitting a generated mnemonic returns its first twelve words and the hash of the low 44 bits of the
      salt, for every entropy, every salt and every word list. */
  lemma SplitRecovers(entropy: Bytes, salt: Bytes, list: seq<string>, space: char -> bool, digest: Bytes -> Bytes)
    requires IsDigest(digest) && IsWordList(list, space)
    ensures FromBytes(salt) % Pow(BASE, SALT_WORDS) < Pow(256, 6)
    ensures SplitResult(GenerateMnemonic(entropy, salt, list, digest), list, space, digest) ==
            Ok((JoinWords(WordsAt(EntropyToIndices(entropy, digest), list)),
                digest(ToBytes(FromBytes(salt) % Pow(BASE, SALT_WORDS), 6))))
  {
    var secret, saltDigits := EntropyToIndices(entropy, digest), SaltToIndices(salt);
    var words := MnemonicWords(entropy, salt, list, digest);
    assert words == WordsAt(secret, list) + WordsAt(saltDigits, list);
    assert words[..WORDS] == WordsAt(secret, list) && words[WORDS..] == WordsAt(saltDigits, list);
    JoinIsTrimmed(words, space);
    SplitOfJoin(words, space);
    IndicesOfWordsAt(saltDigits, list);
    FoldOfDigits(FromBytes(salt), SALT_WORDS);
    SaltFits(saltDigits);
  }

  lemma {:induction false} PowAdd(b: nat, m: nat, n: nat)
    ensures Pow(b, m + n) == Pow(b, m) * Pow(b, n)
  {
    if m > 0 {
      PowAdd(b, m - 1, n);
      Associate(b, Pow(b, m - 1), Pow(b, n));
    }
  }

  lemma Associate(x: nat, y: nat, z: nat)
    ensures x * (y * z) == x * y * z
  {
  }

  /** 128 bits and a nibble fill twelve 11-bit digits exactly. */
  lemma SecretFits()
    ensures Pow(256, 16) * 16 == Pow(BASE, 12)
  {
    assert Pow(256, 4) == 0x1_0000_0000;
    PowAdd(256, 4, 4);
    PowAdd(256, 8, 8);
    assert Pow(BASE, 3) == 0x2_0000_0000;
    PowAdd(BASE, 3, 3);
    PowAdd(BASE, 6, 6);
  }

  lemma SmallIsItsOwnRemainder(value: nat, d: nat)
    requires value < d
    ensures value % d == value
  {
  }

  /** The twelve secret indices are 11-bit numbers that fold back to entropy and checksum. */
  lemma SecretDetermined(entropy: Bytes, digest: Bytes -> Bytes)
    requires |entropy| == 16 && IsDigest(digest)
    ensures AreDigits(EntropyToIndices(entropy, digest))
    ensures Fold(EntropyToIndices(entropy, digest)) == FromBytes(entropy) * 16 + digest(entropy)[0] / 16
  {
    var bits := FromBytes(entropy) * 16 + digest(entropy)[0] / 16;
    BitsFit(entropy, digest(entropy)[0] / 16);
    FoldOfDigits(bits, WORDS);
    hide Pow, Fold, FromBytes;
    SmallIsItsOwnRemainder(bits, Pow(BASE, 12));
  }

  lemma BitsFit(entropy: Bytes, nibble: nat)
    requires |entropy| == 16 && nibble < 16
    ensures FromBytes(entropy) * 16 + nibble < Pow(BASE, 12)
  {
    BytesFit(entropy);
    SecretFits();
    hide Pow, FromBytes;
  }

  /** Reading the words of a mnemonic back gives the sixteen indices it was written from. */
  lemma IndicesReadBack(entropy: Bytes, salt: Bytes, list: seq<string>, space: char -> bool, digest: Bytes -> Bytes)
    requires IsDigest(digest) && IsWordList(list, space)
    ensures var words := SplitWords(GenerateMnemonic(entropy, salt, list, digest), space);
            (forall w :: w in words ==> w in list) &&
            IndicesOf(words, list) == EntropyToIndices(entropy, digest) + SaltToIndices(salt)
  {
    var indices := EntropyToIndices(entropy, digest) + SaltToIndices(salt);
    IndicesOfWordsAt(indices, list);
    var words := WordsAt(indices, list);
    assert MnemonicWords(entropy, salt, list, digest) == words;
    assert SplitWords(JoinWords(words), space) == words by {
      assert forall w :: w in words ==> IsWord(w, space);
      SplitOfJoin(words, space);
    }
  }

  lemma MnemonicDeterminesSecret(
      a: Bytes, saltA: Bytes, b: Bytes, saltB: Bytes, list: seq<string>, space: char -> bool, digest: Bytes -> Bytes)
    requires IsDigest(digest) && IsWordList(list, space)
    requires GenerateMnemonic(a, saltA, list, digest) == GenerateMnemonic(b, saltB, list, digest)
    ensures EntropyToIndices(a, digest) == EntropyToIndices(b, digest)
  {
    IndicesReadBack(a, saltA, list, space, digest);
    IndicesReadBack(b, saltB, list, space, digest);
    var ea, eb := EntropyToIndices(a, digest), EntropyToIndices(b, digest);
    assert ea == (ea + SaltToIndices(saltA))[..WORDS];
    assert eb == (eb + SaltToIndices(saltB))[..WORDS];
  }

  /** Equal mnemonics come from equal entropies, whatever the salts: the word list loses nothing. */
  lemma EqualMnemonicsEqualEntropies(
      a: Bytes, saltA: Bytes, b: Bytes, saltB: Bytes, list: seq<string>, space: char -> bool, digest: Bytes -> Bytes)
    requires |a| == 16 && |b| == 16 && IsDigest(digest) && IsWordList(list, space)
    requires GenerateMnemonic(a, saltA, list, digest) == GenerateMnemonic(b, saltB, list, digest)
    ensures a == b
  {
    MnemonicDeterminesSecret(a, saltA, b, saltB, list, space, digest);
    SecretDetermined(a, digest);
    SecretDetermined(b, digest);
    var ca, cb := digest(a)[0] / 16, digest(b)[0] / 16;
    UniqueQuotient(FromBytes(a) * 16 + ca, 16, FromBytes(a), ca);
    UniqueQuotient(FromBytes(b) * 16 + cb, 16, FromBytes(b), cb);
    FromBytesInjective(a, b);
  }
}

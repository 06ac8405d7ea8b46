/** ASCII models of the Python string built-ins the request handler relies on:
    `str.strip()`, `str.lower()` and `str.split()` without arguments, `int()` applied
    to a string and `str()` applied to an int. */
module Text {
  import opened Common

  /** The ASCII characters for which Python's `str.isspace()` holds:
      tab, line feed, vertical tab, form feed, carriage return, the four
      information separators 0x1C..0x1F, and the space. */
  predicate IsSpace(c: char) {
    c == ' ' || 9 <= c as int <= 13 || 28 <= c as int <= 31
  }

  predicate AllSpace(s: string) {
    forall i :: 0 <= i < |s| ==> IsSpace(s[i])
  }

  predicate NoSpace(s: string) {
    forall i :: 0 <= i < |s| ==> !IsSpace(s[i])
  }

  /** The non-whitespace characters of `s`, in order. */
  function NonSpace(s: string): string {
    if s == [] then [] else (if IsSpace(s[0]) then [] else [s[0]]) + NonSpace(s[1..])
  }

  // ---------------------------------------------------------------- strip

  /** Drops the leading whitespace. */
  function TrimLeft(s: string): (r: string)
    ensures |r| <= |s| && r == s[|s| - |r|..]
    ensures r == [] || !IsSpace(r[0])
  {
    if s == [] then s else if IsSpace(s[0]) then TrimLeft(s[1..]) else s
  }

  /** Drops the trailing whitespace. */
  function TrimRight(s: string): (r: string)
    ensures |r| <= |s| && r == s[..|r|]
    ensures r == [] || !IsSpace(r[|r| - 1])
  {
    if s == [] then s else if IsSpace(s[|s| - 1]) then TrimRight(s[..|s| - 1]) else s
  }

  /** Python's `str.strip()` without arguments. */
  function Strip(s: string): (r: string)
    ensures |r| <= |s|
    ensures r == [] || (!IsSpace(r[0]) && !IsSpace(r[|r| - 1]))
  {
    TrimRight(TrimLeft(s))
  }

  // ---------------------------------------------------------------- lower

  function LowerChar(c: char): char {
    if 'A' <= c <= 'Z' then (c as int + 32) as char else c
  }

  /** Python's `str.lower()` restricted to ASCII letters. */
  function Lower(s: string): (r: string)
    ensures |r| == |s|
  {
    if s == [] then [] else [LowerChar(s[0])] + Lower(s[1..])
  }

  // ---------------------------------------------------------------- split

  /** A non-empty whitespace-free string. */
  predicate IsWord(w: string) {
    w != [] && NoSpace(w)
  }

  /** Length of the longest whitespace-free prefix of `s`. */
  function WordLen(s: string): (n: nat)
    ensures n <= |s| && NoSpace(s[..n])
    ensures n == |s| || IsSpace(s[n])
  {
    if s == [] then 0 else if IsSpace(s[0]) then 0 else 1 + WordLen(s[1..])
  }

  /** Python's `str.split()` without arguments: the maximal runs of
      non-whitespace characters, in order. */
  function Split(s: string): (words: seq<string>)
    ensures forall i :: 0 <= i < |words| ==> IsWord(words[i])
    decreases |s|
  {
    var t := TrimLeft(s);
    if t == [] then []
    else
      var n := WordLen(t);
      var word, rest := t[..n], Split(t[n..]);
      assert IsWord(word);
      assert forall i :: 0 <= i < |rest| ==> IsWord(rest[i]);
      [word] + rest
  }

  /** The words joined with one space between consecutive words. */
  function Join(words: seq<string>): string {
    if words == [] then []
    else if |words| == 1 then words[0]
    else words[0] + [' '] + Join(words[1..])
  }

  function Concat(words: seq<string>): string {
    if words == [] then [] else words[0] + Concat(words[1..])
  }

  // ---------------------------------------------------------------- integers

  /** The whitespace `int()` skips around a number: tab, line feed, vertical
      tab, form feed, carriage return and the space. Unlike `str.isspace()` it
      leaves out the information separators 0x1C..0x1F. */
  predicate IsIntSpace(c: char) {
    c == ' ' || 9 <= c as int <= 13
  }

  /** Drops the leading `int()` whitespace. */
  function IntTrimLeft(s: string): string {
    if s == [] then s else if IsIntSpace(s[0]) then IntTrimLeft(s[1..]) else s
  }

  /** Drops the trailing `int()` whitespace. */
  function IntTrimRight(s: string): string {
    if s == [] then s
    else if IsIntSpace(s[|s| - 1]) then IntTrimRight(s[..|s| - 1])
    else s
  }

  /** The text `int()` reads between its surrounding whitespace. */
  function IntStrip(s: string): (r: string)
    ensures |r| <= |s|
    ensures r == [] || (!IsIntSpace(r[0]) && !IsIntSpace(r[|r| - 1]))
  {
    IntTrimLeftDropsSpace(s);
    IntTrimRightDropsSpace(IntTrimLeft(s));
    IntTrimRight(IntTrimLeft(s))
  }

  predicate IsDigit(c: char) {
    '0' <= c <= '9'
  }

  predicate AllDigits(s: string) {
    forall i :: 0 <= i < |s| ==> IsDigit(s[i])
  }

  function DigitValue(c: char): nat
    requires IsDigit(c)
  {
    c as int - '0' as int
  }

  function DigitChar(d: nat): char
    requires d < 10
  {
    ('0' as int + d) as char
  }

  /** The digit part of a base-10 integer as Python's `int()` accepts it:
      ASCII digits, with single underscores allowed between two digits. */
  predicate DigitString(s: string) {
    if s == [] then false else IsDigit(s[0]) && DigitTail(s[1..])
  }

  /** What may follow a digit inside a digit string. */
  predicate DigitTail(s: string)
    decreases |s|
  {
    if s == [] then true
    else if IsDigit(s[0]) then DigitTail(s[1..])
    else if s[0] == '_' && |s| > 1 then IsDigit(s[1]) && DigitTail(s[2..])
    else false
  }

  /** The number the digits of `s` denote; underscores are skipped. */
  function DigitsValue(s: string): nat {
    if s == [] then 0
    else
      var last := s[|s| - 1];
      if IsDigit(last) then 10 * DigitsValue(s[..|s| - 1]) + DigitValue(last)
      else DigitsValue(s[..|s| - 1])
  }

  /** Python's `int(s)` for a string `s`: surrounding `int()` whitespace is
      ignored, then an optional sign and a digit string; anything else is a
      ValueError, modelled as None. */
  function ParseInt(s: string): Option<int> {
    var t := IntStrip(s);
    if |t| > 0 && (t[0] == '-' || t[0] == '+') then
      if DigitString(t[1..]) then
        Some(if t[0] == '-' then -(DigitsValue(t[1..]) as int) else DigitsValue(t[1..]) as int)
      else None
    else if DigitString(t) then Some(DigitsValue(t) as int)
    else None
  }

  /** Decimal digits of a natural number, without leading zeros. */
  function NatToString(n: nat): (s: string)
    ensures |s| > 0 && AllDigits(s)
    ensures s[0] == '0' ==> n == 0 && s == "0"
  {
    if n < 10 then [DigitChar(n)]
    else
      var init := NatToString(n / 10);
      assert AllDigits(init + [DigitChar(n % 10)]) by {
        assert forall i :: 0 <= i < |init| ==> (init + [DigitChar(n % 10)])[i] == init[i];
      }
      init + [DigitChar(n % 10)]
  }

  /** Python's `str(n)` for an int `n`. */
  function IntToString(n: int): (s: string)
    ensures |s| > 0
  {
    if n < 0 then "-" + NatToString(-n) else NatToString(n)
  }

  /** The canonical form of a requested document identifier: `str(int(raw))`
      when `raw` parses as an integer, and `raw` itself otherwise. */
  function CanonicalId(raw: string): (id: string)
    ensures ParseInt(raw).Some? ==> ParseInt(id) == ParseInt(raw)
    ensures ParseInt(raw).None? ==> id == raw
  {
    match ParseInt(raw)
    case Some(n) => ParseIntOfString(n); IntToString(n)
    case None => raw
  }

  // ---------------------------------------------------------------- lemmas: strip

  lemma {:induction false} NonSpaceAppend(a: string, b: string)
    ensures NonSpace(a + b) == NonSpace(a) + NonSpace(b)
  {
    if a == [] {
      assert a + b == b;
    } else {
      var h := if IsSpace(a[0]) then [] else [a[0]];
      assert (a + b)[0] == a[0];
      assert (a + b)[1..] == a[1..] + b;
      assert NonSpace(a + b) == h + NonSpace(a[1..] + b);
      NonSpaceAppend(a[1..], b);
      assert h + (NonSpace(a[1..]) + NonSpace(b)) == (h + NonSpace(a[1..])) + NonSpace(b);
    }
  }

  /** What `TrimLeft` drops is whitespace. */
  lemma {:induction false} TrimLeftDropsSpace(s: string)
    ensures AllSpace(s[..|s| - |TrimLeft(s)|])
  {
    if |s| > 0 && IsSpace(s[0]) {
      TrimLeftDropsSpace(s[1..]);
      var k := |s| - |TrimLeft(s)|;
      assert forall i :: 1 <= i < k ==> s[..k][i] == s[1..][..k - 1][i - 1];
    }
  }

  /** What `TrimRight` drops is whitespace. */
  lemma {:induction false} TrimRightDropsSpace(s: string)
    ensures AllSpace(s[|TrimRight(s)|..])
  {
    if |s| > 0 && IsSpace(s[|s| - 1]) {
      TrimRightDropsSpace(s[..|s| - 1]);
      var k := |TrimRight(s)|;
      assert forall i :: 0 <= i < |s| - 1 - k ==> s[k..][i] == s[..|s| - 1][k..][i];
    }
  }

  lemma {:induction false} TrimLeftOfBlank(s: string)
    requires AllSpace(s)
    ensures TrimLeft(s) == []
  {
    if s != [] {
      TrimLeftOfBlank(s[1..]);
    }
  }

  /** A query is blank after `strip()` exactly when it is made of whitespace only. */
  lemma StripBlankIff(s: string)
    ensures Strip(s) == [] <==> AllSpace(s)
  {
    var l := TrimLeft(s);
    if AllSpace(s) {
      TrimLeftOfBlank(s);
    }
    if Strip(s) == [] {
      TrimRightDropsSpace(l);
      assert l[0..] == l;
      assert l == [];
      TrimLeftDropsSpace(s);
      assert s[..|s|] == s;
    }
  }

  lemma {:induction false} TrimLeftKeepsText(s: string)
    ensures NonSpace(TrimLeft(s)) == NonSpace(s)
  {
    if s != [] && IsSpace(s[0]) {
      TrimLeftKeepsText(s[1..]);
    }
  }

  lemma {:induction false} TrimRightKeepsText(s: string)
    ensures NonSpace(TrimRight(s)) == NonSpace(s)
  {
    if s != [] && IsSpace(s[|s| - 1]) {
      var init := s[..|s| - 1];
      assert s == init + [s[|s| - 1]];
      NonSpaceAppend(init, [s[|s| - 1]]);
      TrimRightKeepsText(init);
    }
  }

  /** `strip()` removes whitespace only: the non-whitespace characters survive, in order. */
  lemma StripKeepsText(s: string)
    ensures NonSpace(Strip(s)) == NonSpace(s)
  {
    TrimLeftKeepsText(s);
    TrimRightKeepsText(TrimLeft(s));
  }

  // ---------------------------------------------------------------- lemmas: split

  /** The text of `t` is its first word followed by the text of the rest. */
  lemma {:induction false} WordLenKeepsText(t: string)
    ensures NonSpace(t) == t[..WordLen(t)] + NonSpace(t[WordLen(t)..])
  {
    if t != [] && !IsSpace(t[0]) {
      WordLenKeepsText(t[1..]);
      var n := WordLen(t);
      assert t[..n] == [t[0]] + t[1..][..n - 1];
      assert t[n..] == t[1..][n - 1..];
    }
  }

  /** Splitting keeps exactly the non-whitespace characters, in order. */
  lemma {:induction false} SplitKeepsText(s: string)
    ensures Concat(Split(s)) == NonSpace(s)
    decreases |s|
  {
    var t := TrimLeft(s);
    TrimLeftKeepsText(s);
    if t != [] {
      var n := WordLen(t);
      WordLenKeepsText(t);
      SplitKeepsText(t[n..]);
      assert Split(s) == [t[..n]] + Split(t[n..]);
    }
  }

  lemma SplitSkipsSpace(c: char, s: string)
    requires IsSpace(c)
    ensures Split([c] + s) == Split(s)
  {
    assert ([c] + s)[1..] == s;
    assert TrimLeft([c] + s) == TrimLeft(s);
  }

  lemma {:induction false} WordLenOfWord(w: string, rest: string)
    requires NoSpace(w)
    requires rest == [] || IsSpace(rest[0])
    ensures WordLen(w + rest) == |w|
  {
    if w != [] {
      assert (w + rest)[0] == w[0];
      assert (w + rest)[1..] == w[1..] + rest;
      WordLenOfWord(w[1..], rest);
    } else {
      assert w + rest == rest;
    }
  }

  /** Splitting a word followed by whitespace-led text yields the word, then the
      words of the text. */
  lemma SplitWordThen(w: string, rest: string)
    requires IsWord(w)
    requires rest == [] || IsSpace(rest[0])
    ensures Split(w + rest) == [w] + Split(rest)
  {
    var s := w + rest;
    assert s[0] == w[0];
    assert TrimLeft(s) == s;
    WordLenOfWord(w, rest);
    assert s[..|w|] == w;
    assert s[|w|..] == rest;
  }

  lemma SplitJoinStep(words: seq<string>)
    requires |words| > 1 && IsWord(words[0])
    ensures Split(Join(words)) == [words[0]] + Split(Join(words[1..]))
  {
    var rest := Join(words[1..]);
    assert Join(words) == words[0] + ([' '] + rest);
    assert Split(words[0] + ([' '] + rest)) == [words[0]] + Split([' '] + rest) by {
      SplitWordThen(words[0], [' '] + rest);
    }
    assert Split([' '] + rest) == Split(rest) by {
      SplitSkipsSpace(' ', rest);
    }
  }

  lemma SplitOneWord(w: string)
    requires IsWord(w)
    ensures Split(w) == [w]
  {
    assert w + [] == w;
    SplitWordThen(w, []);
  }

  /** Every element is a word. */
  predicate AllWords(words: seq<string>) {
    if words == [] then true else IsWord(words[0]) && AllWords(words[1..])
  }

  /** Splitting words joined by single spaces gives the words back. */
  lemma {:induction false} SplitJoin(words: seq<string>)
    requires AllWords(words)
    ensures Split(Join(words)) == words
  {
    if words == [] {
      assert Join(words) == [];
    } else if |words| == 1 {
      SplitOneWord(words[0]);
    } else {
      var tail := words[1..];
      assert IsWord(words[0]) && AllWords(tail);
      assert Split(Join(tail)) == tail by {
        SplitJoin(tail);
      }
      assert Split(Join(words)) == [words[0]] + Split(Join(tail)) by {
        SplitJoinStep(words);
      }
      assert [words[0]] + tail == words;
    }
  }

  lemma LowerKeepsSpace(c: char)
    ensures IsSpace(LowerChar(c)) <==> IsSpace(c)
  {
  }

  lemma {:induction false} TrimLeftLower(s: string)
    ensures TrimLeft(Lower(s)) == Lower(TrimLeft(s))
  {
    if s != [] {
      LowerKeepsSpace(s[0]);
      assert Lower(s)[1..] == Lower(s[1..]);
      TrimLeftLower(s[1..]);
    }
  }

  lemma {:induction false} WordLenLower(s: string)
    ensures WordLen(Lower(s)) == WordLen(s)
  {
    if s != [] {
      LowerKeepsSpace(s[0]);
      assert Lower(s)[1..] == Lower(s[1..]);
      WordLenLower(s[1..]);
    }
  }

  lemma SplitFirstWord(t: string)
    requires t != [] && !IsSpace(t[0])
    ensures Split(t) == [t[..WordLen(t)]] + Split(t[WordLen(t)..])
  {
    assert TrimLeft(t) == t;
  }

  lemma {:induction false} LowerAppend(a: string, b: string)
    ensures Lower(a + b) == Lower(a) + Lower(b)
  {
    if a == [] {
      assert a + b == b;
    } else {
      assert (a + b)[0] == a[0];
      assert (a + b)[1..] == a[1..] + b;
      LowerAppend(a[1..], b);
    }
  }

  lemma LowerSlices(t: string, n: nat)
    requires n <= |t|
    ensures Lower(t)[..n] == Lower(t[..n]) && Lower(t)[n..] == Lower(t[n..])
  {
    assert t == t[..n] + t[n..];
    LowerAppend(t[..n], t[n..]);
  }

  lemma SplitLowerStep(t: string)
    requires t != [] && !IsSpace(t[0])
    ensures Split(Lower(t)) == [Lower(t[..WordLen(t)])] + Split(Lower(t[WordLen(t)..]))
  {
    var n := WordLen(t);
    var lt := Lower(t);
    assert lt != [] && !IsSpace(lt[0]) by {
      LowerKeepsSpace(t[0]);
    }
    assert WordLen(lt) == n by {
      WordLenLower(t);
    }
    assert Split(lt) == [lt[..n]] + Split(lt[n..]) by {
      SplitFirstWord(lt);
    }
    LowerSlices(t, n);
  }

  /** Each word lower-cased. */
  function LowerAll(words: seq<string>): (r: seq<string>)
    ensures |r| == |words|
  {
    if words == [] then [] else [Lower(words[0])] + LowerAll(words[1..])
  }

  /** Lower-casing the query and then splitting it gives the lower-cased words of the query. */
  lemma {:induction false} SplitLower(s: string)
    ensures Split(Lower(s)) == LowerAll(Split(s))
    decreases |s|
  {
    var t := TrimLeft(s);
    TrimLeftLower(s);
    assert Split(s) == Split(t) && Split(Lower(s)) == Split(Lower(t)) by {
      TrimLeftTwice(s);
      TrimLeftTwice(Lower(s));
    }
    if t != [] {
      var n := WordLen(t);
      var rest := Split(t[n..]);
      SplitFirstWord(t);
      SplitLowerStep(t);
      SplitLower(t[n..]);
      assert ([t[..n]] + rest)[1..] == rest;
    }
  }

  lemma {:induction false} TrimLeftTwice(s: string)
    ensures TrimLeft(TrimLeft(s)) == TrimLeft(s)
    ensures Split(TrimLeft(s)) == Split(s)
  {
    if s != [] && IsSpace(s[0]) {
      TrimLeftTwice(s[1..]);
    }
  }

  // ---------------------------------------------------------------- lemmas: integers

  lemma {:induction false} NatToStringValue(n: nat)
    ensures DigitsValue(NatToString(n)) == n
  {
    if n >= 10 {
      var s := NatToString(n);
      assert s[..|s| - 1] == NatToString(n / 10);
      NatToStringValue(n / 10);
    }
  }

  lemma {:induction false} DigitTailOfDigits(s: string)
    requires AllDigits(s)
    ensures DigitTail(s)
  {
    if s != [] {
      DigitTailOfDigits(s[1..]);
    }
  }

  lemma IntStripOfText(s: string)
    requires |s| > 0 && !IsIntSpace(s[0]) && !IsIntSpace(s[|s| - 1])
    ensures IntStrip(s) == s
  {
  }

  lemma ParseIntUnsigned(t: string)
    requires IntStrip(t) == t && t != [] && IsDigit(t[0]) && DigitString(t)
    ensures ParseInt(t) == Some(DigitsValue(t) as int)
  {
  }

  lemma ParseIntNegative(t: string)
    requires IntStrip(t) == t && t != [] && t[0] == '-' && DigitString(t[1..])
    ensures ParseInt(t) == Some(-(DigitsValue(t[1..]) as int))
  {
  }

  /** A minus sign followed by plain digits parses to the negated digits. */
  lemma ParseIntOfMinusDigits(s: string)
    requires |s| > 1 && s[0] == '-' && AllDigits(s[1..])
    ensures ParseInt(s) == Some(-(DigitsValue(s[1..]) as int))
  {
    DigitStringOfDigits(s[1..]);
    assert IsDigit(s[|s| - 1]) by {
      assert s[|s| - 1] == s[1..][|s| - 2];
    }
    IntStripOfText(s);
    ParseIntNegative(s);
  }

  lemma DigitStringOfDigits(d: string)
    requires d != [] && AllDigits(d)
    ensures DigitString(d)
  {
    DigitTailOfDigits(d[1..]);
  }

  lemma ParseIntOfNegativeString(n: int)
    requires n < 0
    ensures ParseInt(IntToString(n)) == Some(n)
  {
    var m: nat := -n;
    var d := NatToString(m);
    var s := "-" + d;
    assert IntToString(n) == s;
    assert s[1..] == d;
    ParseIntOfMinusDigits(s);
    NatToStringValue(m);
  }

  lemma ParseIntOfNatString(n: nat)
    ensures ParseInt(IntToString(n)) == Some(n)
  {
    var s := NatToString(n);
    DigitTailOfDigits(s[1..]);
    NatToStringValue(n);
    IntStripOfText(s);
    ParseIntUnsigned(s);
  }

  /** `int(str(n)) == n`: the decimal rendering of an integer parses back to it. */
  lemma ParseIntOfString(n: int)
    ensures ParseInt(IntToString(n)) == Some(n)
  {
    if n < 0 {
      ParseIntOfNegativeString(n);
    } else {
      ParseIntOfNatString(n);
    }
  }

  /** `str(int(raw))` is a fixed point: canonicalising twice changes nothing. */
  lemma CanonicalIdIdempotent(raw: string)
    ensures CanonicalId(CanonicalId(raw)) == CanonicalId(raw)
  {
    if ParseInt(raw).Some? {
      ParseIntOfString(ParseInt(raw).value);
    }
  }

  /** Two spellings of the same integer name the same document:
      the canonical identifier depends only on the integer. */
  lemma CanonicalIdOfInteger(a: string, b: string)
    requires ParseInt(a).Some? && ParseInt(a) == ParseInt(b)
    ensures CanonicalId(a) == CanonicalId(b) == IntToString(ParseInt(a).value)
    ensures ParseInt(CanonicalId(a)) == ParseInt(a)
  {
    ParseIntOfString(ParseInt(a).value);
  }

  /** Leading zeros are dropped: "007" names document "7". */
  lemma CanonicalIdLeadingZeros()
    ensures CanonicalId("007") == "7"
  {
    assert ParseInt("007") == Some(7) by {
      assert IntStrip("007") == "007" by { IntStripOfText("007"); }
      assert DigitString("007") by { DigitTailOfDigits("07"); }
      assert DigitsValue("007") == 7 by { assert "007"[..2] == "00" && "00"[..1] == "0"; }
      ParseIntUnsigned("007");
    }
  }

  /** A minus zero is zero. */
  lemma CanonicalIdNegativeZero()
    ensures CanonicalId("-0") == "0"
  {
    assert ParseInt("-0") == Some(0) by {
      assert IntStrip("-0") == "-0" by { IntStripOfText("-0"); }
      assert "-0"[1..] == "0";
      assert DigitString("0") by { DigitTailOfDigits(""); }
      ParseIntNegative("-0");
    }
  }

  /** A character other than a digit or an underscore makes a digit tail invalid. */
  lemma {:induction false} DigitTailRejects(s: string, k: nat)
    requires k < |s| && !IsDigit(s[k]) && s[k] != '_'
    ensures !DigitTail(s)
  {
    if IsDigit(s[0]) {
      DigitTailRejects(s[1..], k - 1);
    } else if s[0] == '_' && |s| > 1 && k >= 2 {
      DigitTailRejects(s[2..], k - 2);
    }
  }

  /** A character other than a digit or an underscore makes a digit string invalid. */
  lemma DigitStringRejects(s: string, k: nat)
    requires k < |s| && !IsDigit(s[k]) && s[k] != '_'
    ensures !DigitString(s)
  {
    if k > 0 {
      DigitTailRejects(s[1..], k - 1);
    }
  }

  /** `IntTrimLeft` drops a prefix of `int()` whitespace and stops at a
      character that is not. */
  lemma {:induction false} IntTrimLeftDropsSpace(s: string)
    ensures var r := IntTrimLeft(s);
      && |r| <= |s| && r == s[|s| - |r|..]
      && (forall k :: 0 <= k < |s| - |r| ==> IsIntSpace(s[k]))
      && (r == [] || !IsIntSpace(r[0]))
  {
    if s != [] && IsIntSpace(s[0]) {
      var t := s[1..];
      var r := IntTrimLeft(t);
      IntTrimLeftDropsSpace(t);
      assert t[|t| - |r|..] == s[|s| - |r|..];
      assert forall k :: 1 <= k < |s| ==> s[k] == t[k - 1];
    }
  }

  /** `IntTrimRight` drops a suffix of `int()` whitespace and stops at a
      character that is not. */
  lemma {:induction false} IntTrimRightDropsSpace(s: string)
    ensures var r := IntTrimRight(s);
      && |r| <= |s| && r == s[..|r|]
      && (forall k :: |r| <= k < |s| ==> IsIntSpace(s[k]))
      && (r == [] || !IsIntSpace(r[|r| - 1]))
  {
    if s != [] && IsIntSpace(s[|s| - 1]) {
      var r := IntTrimRight(s[..|s| - 1]);
      IntTrimRightDropsSpace(s[..|s| - 1]);
      assert forall k :: |r| <= k < |s| - 1 ==> s[k] == s[..|s| - 1][k];
    }
  }

  /** A character of `s` that is not `int()` whitespace survives `IntStrip`,
      at its place after the dropped prefix. */
  lemma IntStripKeeps(s: string, i: nat) returns (k: nat)
    requires i < |s| && !IsIntSpace(s[i])
    ensures k < |IntStrip(s)| && IntStrip(s)[k] == s[i]
  {
    var l := IntTrimLeft(s);
    IntTrimLeftDropsSpace(s);
    IntTrimRightDropsSpace(l);
    var off := |s| - |l|;
    assert off <= i;
    k := i - off;
    assert l[k] == s[i];
    assert k < |IntTrimRight(l)|;
  }

  /** An identifier with a character other than `int()` whitespace, a sign, a
      digit or an underscore is not numeric, so it is kept verbatim. */
  lemma CanonicalIdNonNumeric(raw: string, i: nat)
    requires i < |raw|
    requires !IsIntSpace(raw[i]) && !IsDigit(raw[i]) && raw[i] !in "+-_"
    ensures ParseInt(raw) == None
    ensures CanonicalId(raw) == raw
  {
    var t := IntStrip(raw);
    var k := IntStripKeeps(raw, i);
    if t[0] == '-' || t[0] == '+' {
      DigitStringRejects(t[1..], k - 1);
    } else {
      DigitStringRejects(t, k);
    }
  }

  /** `int()` and `str.strip()` disagree on the separator 0x1C: `strip()`
      removes it, while `int()` rejects a number that it precedes. */
  lemma SeparatorIsNotIntSpace()
    ensures Strip("\U{1C}7") == "7"
    ensures ParseInt("\U{1C}7") == None
    ensures CanonicalId("\U{1C}7") == "\U{1C}7"
  {
    CanonicalIdNonNumeric("\U{1C}7", 0);
  }
}

/** JSON texts (RFC 8259) as `encoding/json` checks them when a value marshals
    itself, and which base64 texts are among them. */
module Json {
  import opened Text
  import opened Base64

  const TRUE: seq<byte> := [116, 114, 117, 101]
  const FALSE: seq<byte> := [102, 97, 108, 115, 101]
  const NULL: seq<byte> := [110, 117, 108, 108]

  // ---------------------------------------------------------------- the grammar

  predicate IsBlank(c: byte) { c == 32 || c == 9 || c == 10 || c == 13 }

  predicate Blank(s: seq<byte>) { forall k :: 0 <= k < |s| ==> IsBlank(s[k]) }

  predicate IsDigit(c: byte) { 48 <= c <= 57 }

  predicate Digits(s: seq<byte>) { s != [] && forall k :: 0 <= k < |s| ==> IsDigit(s[k]) }

  /** Without a leading zero. */
  predicate Integer(s: seq<byte>) { Digits(s) && (s[0] == 48 ==> |s| == 1) }

  predicate Fraction(s: seq<byte>) { s != [] && s[0] == 46 && Digits(s[1..]) }

  predicate Exponent(s: seq<byte>) {
    && |s| >= 2 && (s[0] == 69 || s[0] == 101)
    && (Digits(s[1..]) || ((s[1] == 43 || s[1] == 45) && Digits(s[2..])))
  }

  predicate NumberParts(sign: seq<byte>, whole: seq<byte>, frac: seq<byte>, exp: seq<byte>) {
    && (sign == [] || sign == [45]) && Integer(whole)
    && (frac == [] || Fraction(frac)) && (exp == [] || Exponent(exp))
  }

  ghost predicate Number(s: seq<byte>) {
    exists sign, whole, frac, exp :: NumberParts(sign, whole, frac, exp) && s == sign + whole + frac + exp
  }

  predicate IsHex(c: byte) { IsDigit(c) || 65 <= c <= 70 || 97 <= c <= 102 }

  /** The inside of a string: bytes from 32 on, with escapes. */
  predicate Chars(s: seq<byte>) {
    if s == [] then true
    else if s[0] < 32 || s[0] == 34 then false
    else if s[0] != 92 then Chars(s[1..])
    else if |s| >= 2 && s[1] in {34, 92, 47, 98, 102, 110, 114, 116} then Chars(s[2..])
    else |s| >= 6 && s[1] == 117 && IsHex(s[2]) && IsHex(s[3]) && IsHex(s[4]) && IsHex(s[5]) && Chars(s[6..])
  }

  predicate Quoted(s: seq<byte>) { |s| >= 2 && s[0] == 34 == s[|s| - 1] && Chars(s[1..|s| - 1]) }

  ghost predicate Value(s: seq<byte>)
    decreases |s|, 0
  {
    || s == TRUE || s == FALSE || s == NULL || Number(s) || Quoted(s)
    || (|s| >= 2 && s[0] == 91 && s[|s| - 1] == 93 && (Blank(s[1..|s| - 1]) || Elements(s[1..|s| - 1])))
    || (|s| >= 2 && s[0] == 123 && s[|s| - 1] == 125 && (Blank(s[1..|s| - 1]) || Members(s[1..|s| - 1])))
  }

  ghost predicate Elements(s: seq<byte>)
    decreases |s|, 2
  {
    || IsJson(s)
    || exists k :: 0 <= k < |s| && s[k] == 44 && IsJson(s[..k]) && Elements(s[k + 1..])
  }

  ghost predicate Members(s: seq<byte>)
    decreases |s|, 2
  {
    || Member(s)
    || exists k :: 0 <= k < |s| && s[k] == 44 && Member(s[..k]) && Members(s[k + 1..])
  }

  ghost predicate Member(s: seq<byte>)
    decreases |s|, 1
  {
    exists i, j, k :: && 0 <= i <= j <= k < |s| && s[k] == 58
                      && Blank(s[..i]) && Quoted(s[i..j]) && Blank(s[j..k]) && IsJson(s[k + 1..])
  }

  /** A JSON text: one value, with blanks around it. */
  ghost predicate IsJson(s: seq<byte>)
    decreases |s|, 1
  {
    exists i, j :: 0 <= i <= j <= |s| && Blank(s[..i]) && Value(s[i..j]) && Blank(s[j..])
  }

  // ---------------------------------------------------------------- base64 texts

  /** A digit of base64, or the padding. */
  predicate InAlphabet(c: byte) { c == PAD || Undigit(c).Some? }

  lemma {:induction false} EncodedAlphabet(src: seq<byte>)
    ensures forall k :: 0 <= k < |Encode(src)| ==> InAlphabet(Encode(src)[k])
    ensures |src| % 3 == 0 ==> PAD !in Encode(src)
    ensures |src| % 3 != 0 ==> PAD in Encode(src)
  {
    forall i: sextet
      ensures InAlphabet(Digit(i)) && Digit(i) != PAD
    {
      UndigitDigit(i);
    }
    if |src| > 3 { EncodedAlphabet(src[3..]); }
  }

  /** The digits a text begins with. */
  function DigitRun(s: seq<byte>): (n: nat)
    ensures n <= |s|
    ensures forall k :: 0 <= k < n ==> IsDigit(s[k])
    ensures n < |s| ==> !IsDigit(s[n])
  {
    if s != [] && IsDigit(s[0]) then 1 + DigitRun(s[1..]) else 0
  }

  /** An integer, perhaps with an exponent. */
  predicate BareNumber(s: seq<byte>) {
    Integer(s[..DigitRun(s)]) && (DigitRun(s) == |s| || Exponent(s[DigitRun(s)..]))
  }

  /** None of these bytes opens a value other than a word or a bare number, nor
      surrounds one. */
  lemma AlphabetFacts(c: byte)
    requires InAlphabet(c)
    ensures !IsBlank(c) && c != 34 && c != 45 && c != 46 && c != 91 && c != 123
    ensures c == PAD ==> !IsDigit(c) && c != 43 && c != 69 && c != 101
  {
  }

  lemma ExponentFacts(s: seq<byte>)
    requires Exponent(s)
    ensures !IsDigit(s[0]) && PAD !in s
  {
    forall k | 0 <= k < |s|
      ensures s[k] != PAD
    {
      assert k >= 1 ==> s[k] == s[1..][k - 1];
      assert k >= 2 ==> s[k] == s[2..][k - 2];
    }
  }

  lemma RunOf(whole: seq<byte>, exp: seq<byte>)
    requires Digits(whole) && (exp == [] || Exponent(exp))
    ensures DigitRun(whole + exp) == |whole|
  {
    hide IsDigit, Exponent;
    if exp != [] { ExponentFacts(exp); }
    var s, n := whole + exp, DigitRun(whole + exp);
    assert forall k :: 0 <= k < |whole| ==> s[k] == whole[k];
    assert exp != [] ==> s[|whole|] == exp[0];
  }

  lemma FractionHasDot(s: seq<byte>)
    requires Fraction(s)
    ensures 46 in s
  {
  }

  lemma NoSignNoFraction(sign: seq<byte>, whole: seq<byte>, frac: seq<byte>, exp: seq<byte>)
    requires NumberParts(sign, whole, frac, exp)
    requires 45 !in sign + whole + frac + exp && 46 !in sign + whole + frac + exp
    ensures sign + whole + frac + exp == whole + exp
  {
    hide Exponent, Integer, Fraction;
    if frac != [] { FractionHasDot(frac); }
    var s := sign + whole + frac + exp;
    assert forall c :: c in sign || c in frac ==> c in s;
    assert sign == [] && frac == [];
  }

  lemma SplitAtRun(whole: seq<byte>, exp: seq<byte>)
    requires Integer(whole) && (exp == [] || Exponent(exp))
    ensures BareNumber(whole + exp)
  {
    hide Exponent, DigitRun;
    var s := whole + exp;
    RunOf(whole, exp);
    assert s[..|whole|] == whole && s[|whole|..] == exp;
  }

  lemma BareIsNumber(s: seq<byte>)
    requires BareNumber(s)
    ensures Number(s)
  {
    hide Exponent, Integer, Fraction, DigitRun;
    var none: seq<byte> := [];
    var whole, exp := s[..DigitRun(s)], s[DigitRun(s)..];
    assert NumberParts(none, whole, none, exp);
    assert s == none + whole + none + exp;
  }

  lemma BareNumbers(s: seq<byte>)
    requires 45 !in s && 46 !in s
    ensures Number(s) <==> BareNumber(s)
  {
    hide Exponent, Integer, Fraction, BareNumber;
    if Number(s) {
      var sign, whole, frac, exp :| NumberParts(sign, whole, frac, exp) && s == sign + whole + frac + exp;
      NoSignNoFraction(sign, whole, frac, exp);
      SplitAtRun(whole, exp);
    }
    if BareNumber(s) { BareIsNumber(s); }
  }

  lemma OnlyBareValues(s: seq<byte>)
    requires s != [] ==> s[0] != 34 && s[0] != 91 && s[0] != 123
    ensures Value(s) <==> s == TRUE || s == FALSE || s == NULL || Number(s)
  {
    hide Number, Chars, Elements, Members;
  }

  lemma NoBlanks(s: seq<byte>)
    requires forall c :: c in s ==> !IsBlank(c)
    ensures Blank(s) <==> s == []
  {
    if s != [] { assert s[0] in s; }
  }

  lemma NothingAround(s: seq<byte>)
    requires forall c :: c in s ==> !IsBlank(c)
    ensures IsJson(s) <==> Value(s)
  {
    hide IsBlank, Value;
    forall i, j | 0 <= i <= j <= |s| && Blank(s[..i]) && Blank(s[j..])
      ensures i == 0 && j == |s|
    {
      NoBlanks(s[..i]);
      NoBlanks(s[j..]);
    }
    assert s[..0] == [] && s[0..|s|] == s && s[|s|..] == [];
    assert Blank(s[..0]) && Blank(s[|s|..]);
    forall i, j | 0 <= i <= j <= |s| && Blank(s[..i]) && Value(s[i..j]) && Blank(s[j..])
      ensures Value(s)
    {
      assert s[i..j] == s;
    }
  }

  /** Which texts over the base64 alphabet are JSON: two words of four letters,
      one of five, and numbers without sign and fraction. */
  lemma AlphabetJson(s: seq<byte>)
    requires forall k :: 0 <= k < |s| ==> InAlphabet(s[k])
    ensures IsJson(s) <==> s == TRUE || s == FALSE || s == NULL || BareNumber(s)
  {
    hide InAlphabet, IsBlank, BareNumber, Number, IsJson, Value;
    forall k | 0 <= k < |s|
      ensures !IsBlank(s[k]) && s[k] != 34 && s[k] != 45 && s[k] != 46 && s[k] != 91 && s[k] != 123
    {
      AlphabetFacts(s[k]);
    }
    BareNumbers(s);
    OnlyBareValues(s);
    NothingAround(s);
  }

  /** The base64 text of raw bytes, which a nested response marshals itself to
      without quotes, is JSON if and only if it is `true`, `null` or a number
      literal; so never when it is padded, and never when it is empty. */
  lemma RawTextIsJsonExactly(raw: seq<byte>)
    ensures IsJson(Encode(raw)) <==> Encode(raw) == TRUE || Encode(raw) == NULL || BareNumber(Encode(raw))
    ensures IsJson(Encode(raw)) ==> raw != [] && |raw| % 3 == 0
  {
    hide InAlphabet, IsJson, BareNumber, Encode;
    var s := Encode(raw);
    EncodedAlphabet(raw);
    EncodeLength(raw);
    AlphabetJson(s);
    assert |s| % 4 == 0;
    assert |FALSE| == 5;
    if BareNumber(s) {
      BareIsUnpadded(s);
    }
  }

  lemma BareIsUnpadded(s: seq<byte>)
    requires BareNumber(s)
    ensures PAD !in s && s != []
  {
    hide Exponent;
    var n := DigitRun(s);
    if n < |s| {
      ExponentFacts(s[n..]);
      assert s == s[..n] + s[n..];
    }
  }
}

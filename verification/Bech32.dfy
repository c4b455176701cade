/**
 Bech32 and Bech32m text (BIP 173, section "Bech32"; BIP 350, section "Bech32m").
 */
module Bech32 {
  import opened Basics
  import opened Bech32Checksum
  import opened Bech32Distance

  datatype Encoding = BECH32 | BECH32M

  /** The successful result of decoding; failures are `None`. */
  datatype Decoding = Decoding(encoding: Encoding, hrp: string, data: seq<Symbol>)

  const CHECKSUM_SIZE := 6
  const SEPARATOR := '1'

  function EncodingConstant(e: Encoding): (k: Register)
    ensures k < TOP
  {
    if e.BECH32? then 1 else 0x2bc830a3
  }

  // ----- Characters -----

  /** The character set for encoding. */
  function Letter(v: Symbol): char {
    if v == 0 then 'q' else if v == 1 then 'p' else if v == 2 then 'z' else if v == 3 then 'r'
    else if v == 4 then 'y' else if v == 5 then '9' else if v == 6 then 'x' else if v == 7 then '8'
    else if v == 8 then 'g' else if v == 9 then 'f' else if v == 10 then '2' else if v == 11 then 't'
    else if v == 12 then 'v' else if v == 13 then 'd' else if v == 14 then 'w' else if v == 15 then '0'
    else if v == 16 then 's' else if v == 17 then '3' else if v == 18 then 'j' else if v == 19 then 'n'
    else if v == 20 then '5' else if v == 21 then '4' else if v == 22 then 'k' else if v == 23 then 'h'
    else if v == 24 then 'c' else if v == 25 then 'e' else if v == 26 then '6' else if v == 27 then 'm'
    else if v == 28 then 'u' else if v == 29 then 'a' else if v == 30 then '7' else 'l'
  }

  function LowerCase(c: char): char {
    if 'A' <= c <= 'Z' then (c as int + 32) as char else c
  }

  /** The character set for decoding, digits and lower-case rows; `None` where the table holds -1. */
  function Reverse(c: char): Option<Symbol> {
    if c == '0' then Some(15) else if c == '2' then Some(10) else if c == '3' then Some(17)
    else if c == '4' then Some(21) else if c == '5' then Some(20) else if c == '6' then Some(26)
    else if c == '7' then Some(30) else if c == '8' then Some(7) else if c == '9' then Some(5)
    else if c == 'a' then Some(29) else if c == 'c' then Some(24) else if c == 'd' then Some(13)
    else if c == 'e' then Some(25) else if c == 'f' then Some(9) else if c == 'g' then Some(8)
    else if c == 'h' then Some(23) else if c == 'j' then Some(18) else if c == 'k' then Some(22)
    else if c == 'l' then Some(31) else if c == 'm' then Some(27) else if c == 'n' then Some(19)
    else if c == 'p' then Some(1) else if c == 'q' then Some(0) else if c == 'r' then Some(3)
    else if c == 's' then Some(16) else if c == 't' then Some(11) else if c == 'u' then Some(28)
    else if c == 'v' then Some(12) else if c == 'w' then Some(14) else if c == 'x' then Some(6)
    else if c == 'y' then Some(4) else if c == 'z' then Some(2)
    else None
  }

  /** The whole table: the upper-case rows repeat the lower-case ones. */
  function CharsetRev(c: char): Option<Symbol> {
    Reverse(LowerCase(c))
  }

  lemma LetterBack(v: Symbol)
    ensures Reverse(Letter(v)) == Some(v)
  {
  }

  lemma ReverseBack(c: char)
    requires Reverse(c).Some?
    ensures Letter(Reverse(c).value) == c
  {
  }

  /** The two tables are inverse to each other. */
  lemma Tables(v: Symbol, c: char)
    ensures CharsetRev(Letter(v)) == Some(v)
    ensures CharsetRev(c).Some? ==> Letter(CharsetRev(c).value) == LowerCase(c)
  {
    hide Letter, Reverse;
    LetterBack(v);
    LetterIs(v);
    if CharsetRev(c).Some? {
      ReverseBack(LowerCase(c));
    }
  }

  lemma LetterIs(v: Symbol)
    ensures LowerCase(Letter(v)) == Letter(v)
    ensures 33 as char <= Letter(v) <= 126 as char && Letter(v) != SEPARATOR
  {
  }

  predicate IsLower(c: char) {
    'a' <= c <= 'z'
  }

  predicate IsUpper(c: char) {
    'A' <= c <= 'Z'
  }

  predicate IsLetter(c: char) {
    IsLower(c) || IsUpper(c)
  }

  predicate Printable(c: char) {
    33 as char <= c <= 126 as char
  }

  function Lower(s: string): (t: string)
    ensures |t| == |s|
    ensures forall i :: 0 <= i < |s| ==> t[i] == LowerCase(s[i])
  {
    seq(|s|, i requires 0 <= i < |s| => LowerCase(s[i]))
  }

  /** Printable characters only, and not both cases. */
  predicate Legal(s: string) {
    (forall i :: 0 <= i < |s| ==> Printable(s[i])) &&
    ((forall i :: 0 <= i < |s| ==> !IsUpper(s[i])) || (forall i :: 0 <= i < |s| ==> !IsLower(s[i])))
  }

  /** The first letter of a text is at `q`. */
  predicate FirstLetter(s: string, q: nat) {
    q < |s| && IsLetter(s[q]) && forall r :: 0 <= r < q ==> !IsLetter(s[r])
  }

  /** Unprintable, or a letter whose case differs from the first letter's. */
  ghost predicate Fault(s: string, p: nat)
    requires p < |s|
  {
    !Printable(s[p]) || (IsLetter(s[p]) && exists q: nat :: FirstLetter(s, q) && IsLower(s[q]) != IsLower(s[p]))
  }

  /** Return indices of invalid characters in a text. */
  method CheckCharacters(s: string) returns (ok: bool, errors: seq<nat>)
    ensures ok <==> Legal(s)
    ensures forall p: nat :: p in errors <==> p < |s| && Fault(s, p)
    ensures forall a, b :: 0 <= a < b < |errors| ==> errors[a] < errors[b]
  {
    var lower, upper := false, false;
    errors := [];
    ghost var first: nat := 0;
    var i := 0;
    while i < |s|
      invariant 0 <= i <= |s|
      invariant !(lower && upper)
      invariant lower || upper ==> first < i && FirstLetter(s, first) && lower == IsLower(s[first])
      invariant !lower && !upper ==> forall r :: 0 <= r < i ==> !IsLetter(s[r])
      invariant forall p: nat :: p in errors <==> p < i && Fault(s, p)
      invariant forall a :: 0 <= a < |errors| ==> errors[a] < i
      invariant forall a, b :: 0 <= a < b < |errors| ==> errors[a] < errors[b]
    {
      var c := s[i];
      ghost var before := errors;
      if !lower && !upper && IsLetter(c) {
        first := i;
      }
      if IsLower(c) {
        if upper {
          errors := errors + [i];
        } else {
          lower := true;
        }
      } else if IsUpper(c) {
        if lower {
          errors := errors + [i];
        } else {
          upper := true;
        }
      } else if c < 33 as char || c > 126 as char {
        errors := errors + [i];
      }
      if lower || upper {
        OnlyFirst(s, first);
      }
      assert i in errors <==> Fault(s, i);
      i := i + 1;
    }
    ok := errors == [];
    LegalIff(s);
    if !ok {
      assert errors[0] in errors;
    }
  }

  lemma FirstLetterExists(s: string, p: nat) returns (q: nat)
    requires p < |s| && IsLetter(s[p])
    ensures FirstLetter(s, q) && q <= p
  {
    q := 0;
    while q < p && !IsLetter(s[q])
      invariant q <= p
      invariant forall r :: 0 <= r < q ==> !IsLetter(s[r])
    {
      q := q + 1;
    }
  }

  lemma OnlyFirst(s: string, first: nat)
    requires FirstLetter(s, first)
    ensures forall q: nat :: FirstLetter(s, q) ==> q == first
  {
  }

  lemma LegalIff(s: string)
    ensures Legal(s) <==> forall p :: 0 <= p < |s| ==> !Fault(s, p)
  {
    if !Legal(s) && forall i :: 0 <= i < |s| ==> Printable(s[i]) {
      var i :| 0 <= i < |s| && IsUpper(s[i]);
      var j :| 0 <= j < |s| && IsLower(s[j]);
      var q := FirstLetterExists(s, i);
      assert Fault(s, if IsLower(s[q]) then i else j);
    } else if !Legal(s) {
      var i :| 0 <= i < |s| && !Printable(s[i]);
      assert Fault(s, i);
    }
  }

  // ----- What is encoded -----

  function High(c: char): Symbol {
    ((c as int / 32) % 32) as Symbol
  }

  function Low(c: char): Symbol {
    (c as int % 32) as Symbol
  }

  function Highs(hrp: string): seq<Symbol> {
    seq(|hrp|, i requires 0 <= i < |hrp| => High(hrp[i]))
  }

  function Lows(hrp: string): seq<Symbol> {
    seq(|hrp|, i requires 0 <= i < |hrp| => Low(hrp[i]))
  }

  /** A prefix as the checksum sees it. */
  function Expand(hrp: string): seq<Symbol> {
    Highs(hrp) + [0] + Lows(hrp)
  }

  function Text(vs: seq<Symbol>): string {
    seq(|vs|, i requires 0 <= i < |vs| => Letter(vs[i]))
  }

  predicate Readable(t: string) {
    forall i :: 0 <= i < |t| ==> CharsetRev(t[i]).Some?
  }

  function Values(t: string): seq<Symbol>
    requires Readable(t)
  {
    seq(|t|, i requires 0 <= i < |t| => CharsetRev(t[i]).value)
  }

  function Encoded(e: Encoding, hrp: string, values: seq<Symbol>): string {
    hrp + [SEPARATOR] + Text(values + Checksum(Expand(hrp) + values, EncodingConstant(e)))
  }

  /** The position of the last separator, or -1. */
  function LastSeparator(s: string): (p: int)
    ensures -1 <= p < |s|
    ensures p >= 0 ==> s[p] == SEPARATOR
    ensures forall i :: p < i < |s| ==> s[i] != SEPARATOR
  {
    if s == [] then -1
    else if s[|s| - 1] == SEPARATOR then |s| - 1
    else LastSeparator(s[..|s| - 1])
  }

  function Verified(hrp: string, values: seq<Symbol>): Option<Encoding> {
    var check := PolyMod(Expand(hrp) + values);
    if check == EncodingConstant(BECH32) then Some(BECH32)
    else if check == EncodingConstant(BECH32M) then Some(BECH32M)
    else None
  }

  function Decoded(s: string, limit: nat): Option<Decoding> {
    var p := LastSeparator(s);
    if !Legal(s) || |s| > limit || p <= 0 || p + CHECKSUM_SIZE >= |s| || !Readable(s[p + 1..]) then None
    else
      var hrp, values := Lower(s[..p]), Values(s[p + 1..]);
      match Verified(hrp, values)
      case None => None
      case Some(e) => Some(Decoding(e, hrp, values[..|values| - CHECKSUM_SIZE]))
  }

  /** A prefix an encoder may use and a decoder accepts. */
  predicate GoodPrefix(hrp: string) {
    hrp != [] && forall i :: 0 <= i < |hrp| ==> Printable(hrp[i]) && !IsUpper(hrp[i])
  }

  // ----- Decoding undoes encoding -----

  lemma TextValues(vs: seq<Symbol>)
    ensures Readable(Text(vs)) && Values(Text(vs)) == vs
    ensures Lower(Text(vs)) == Text(vs)
    ensures forall i :: 0 <= i < |vs| ==> Printable(Text(vs)[i]) && !IsUpper(Text(vs)[i]) && Text(vs)[i] != SEPARATOR
  {
    hide Letter, CharsetRev, LowerCase;
    forall i | 0 <= i < |vs|
      ensures CharsetRev(Text(vs)[i]) == Some(vs[i])
      ensures LowerCase(Text(vs)[i]) == Text(vs)[i] && Printable(Text(vs)[i])
      ensures !IsUpper(Text(vs)[i]) && Text(vs)[i] != SEPARATOR
    {
      Tables(vs[i], 'q');
      LetterIs(vs[i]);
      NotUpper(Letter(vs[i]));
    }
  }

  lemma NotUpper(c: char)
    ensures LowerCase(c) == c <==> !IsUpper(c)
  {
  }

  lemma ValuesText(t: string)
    requires Readable(t)
    ensures Text(Values(t)) == Lower(t)
  {
    hide Letter, CharsetRev, LowerCase;
    forall i | 0 <= i < |t|
      ensures Text(Values(t))[i] == LowerCase(t[i])
    {
      Tables(0, t[i]);
    }
  }

  lemma SeparatorAt(s: string, p: int)
    requires 0 <= p < |s| && s[p] == SEPARATOR
    requires forall i :: p < i < |s| ==> s[i] != SEPARATOR
    ensures LastSeparator(s) == p
  {
  }

  lemma LowerIs(s: string)
    requires forall i :: 0 <= i < |s| ==> !IsUpper(s[i])
    ensures Lower(s) == s
  {
    forall i | 0 <= i < |s|
      ensures LowerCase(s[i]) == s[i]
    {
      NotUpper(s[i]);
    }
  }

  lemma VerifiedIff(hrp: string, values: seq<Symbol>, cs: seq<Symbol>, e: Encoding)
    requires |cs| == 6
    ensures Verified(hrp, values + cs) == Some(e) <==> cs == Checksum(Expand(hrp) + values, EncodingConstant(e))
  {
    hide Checksum, PolyMod;
    assert Expand(hrp) + (values + cs) == (Expand(hrp) + values) + cs;
    ChecksumExact(Expand(hrp) + values, cs, EncodingConstant(e));
    ConstantsDiffer();
  }

  lemma ConstantsDiffer()
    ensures EncodingConstant(BECH32) != EncodingConstant(BECH32M)
  {
  }

  /** The parts of an encoded text. */
  lemma EncodedParts(e: Encoding, hrp: string, values: seq<Symbol>)
    ensures var s := Encoded(e, hrp, values);
      var cs := Checksum(Expand(hrp) + values, EncodingConstant(e));
      && |s| == |hrp| + 7 + |values| && |cs| == 6
      && s[..|hrp|] == hrp && s[|hrp|] == SEPARATOR && s[|hrp| + 1..] == Text(values + cs)
      && LastSeparator(s) == |hrp|
  {
    hide Checksum, Letter;
    var s := Encoded(e, hrp, values);
    var cs := Checksum(Expand(hrp) + values, EncodingConstant(e));
    assert |cs| == 6 by { ChecksumSize(Expand(hrp) + values, EncodingConstant(e)); }
    var t := Text(values + cs);
    TextValues(values + cs);
    assert s == (hrp + [SEPARATOR]) + t;
    forall i | |hrp| < i < |s|
      ensures s[i] != SEPARATOR
    {
      assert s[i] == t[i - |hrp| - 1];
    }
    SeparatorAt(s, |hrp|);
  }

  lemma ChecksumSize(vs: seq<Symbol>, k: Register)
    ensures |Checksum(vs, k)| == 6
  {
  }

  lemma EncodedLegal(e: Encoding, hrp: string, values: seq<Symbol>)
    requires forall i :: 0 <= i < |hrp| ==> Printable(hrp[i]) && !IsUpper(hrp[i])
    ensures Legal(Encoded(e, hrp, values))
    ensures Lower(Encoded(e, hrp, values)) == Encoded(e, hrp, values)
  {
    hide Checksum, Letter;
    var s := Encoded(e, hrp, values);
    var cs := Checksum(Expand(hrp) + values, EncodingConstant(e));
    TextValues(values + cs);
    forall i | 0 <= i < |s|
      ensures Printable(s[i]) && !IsUpper(s[i])
    {
      assert s[i] == if i < |hrp| then hrp[i] else if i == |hrp| then SEPARATOR else Text(values + cs)[i - |hrp| - 1];
    }
    LowerIs(s);
  }

  /** What is encoded under a good prefix and within the limit is decoded, and nothing else is. */
  lemma DecodeEncode(e: Encoding, hrp: string, values: seq<Symbol>, limit: nat)
    requires forall i :: 0 <= i < |hrp| ==> !IsUpper(hrp[i])
    ensures GoodPrefix(hrp) && |hrp| + 7 + |values| <= limit ==>
              Decoded(Encoded(e, hrp, values), limit) == Some(Decoding(e, hrp, values))
    ensures !(GoodPrefix(hrp) && |hrp| + 7 + |values| <= limit) ==> Decoded(Encoded(e, hrp, values), limit).None?
  {
    hide Checksum, Letter, Verified, LastSeparator, Encoded;
    var s := Encoded(e, hrp, values);
    var cs := Checksum(Expand(hrp) + values, EncodingConstant(e));
    EncodedParts(e, hrp, values);
    if GoodPrefix(hrp) {
      EncodedLegal(e, hrp, values);
      TextValues(values + cs);
      LowerIs(hrp);
      VerifiedIff(hrp, values, cs, e);
      assert (values + cs)[..|values + cs| - 6] == values;
    } else if hrp != [] {
      var i :| 0 <= i < |hrp| && !Printable(hrp[i]);
      assert s[..|hrp|][i] == s[i];
      assert !Legal(s);
    }
  }

  // ----- Encoding undoes decoding -----

  lemma LowerParts(s: string, p: nat)
    requires p < |s| && s[p] == SEPARATOR
    ensures Lower(s) == Lower(s[..p]) + [SEPARATOR] + Lower(s[p + 1..])
  {
  }

  lemma PrintableLower(c: char)
    requires Printable(c)
    ensures Printable(LowerCase(c)) && !IsUpper(LowerCase(c))
    ensures LowerCase(c) == SEPARATOR <==> c == SEPARATOR
    ensures CharsetRev(LowerCase(c)) == CharsetRev(c)
  {
    hide Reverse;
    NotUpper(LowerCase(c));
  }

  /** Encoding what was decoded gives the text again, in lower case. */
  lemma EncodeDecode(s: string, limit: nat)
    requires Decoded(s, limit).Some?
    ensures var r := Decoded(s, limit).value;
      Encoded(r.encoding, r.hrp, r.data) == Lower(s) && GoodPrefix(r.hrp) && |s| <= limit
  {
    hide Checksum, Letter, Verified, LastSeparator, CharsetRev;
    var r := Decoded(s, limit).value;
    var p := LastSeparator(s);
    assert s[p] == SEPARATOR;
    var values := Values(s[p + 1..]);
    var n := |values| - 6;
    var cs := values[n..];
    assert values == r.data + cs;
    VerifiedIff(r.hrp, r.data, cs, r.encoding);
    ValuesText(s[p + 1..]);
    LowerParts(s, p);
    forall i | 0 <= i < |r.hrp|
      ensures Printable(r.hrp[i]) && !IsUpper(r.hrp[i])
    {
      PrintableLower(s[i]);
    }
  }

  lemma LowerSlices(s: string, p: nat)
    requires p < |s|
    ensures Lower(s)[..p] == Lower(s[..p]) && Lower(s)[p + 1..] == Lower(s[p + 1..])
  {
  }

  lemma LowerTwice(s: string)
    ensures Lower(Lower(s)) == Lower(s)
  {
    forall i | 0 <= i < |s|
      ensures LowerCase(LowerCase(s[i])) == LowerCase(s[i])
    {
      NotUpper(LowerCase(s[i]));
    }
  }

  lemma LowerReads(t: string)
    requires forall i :: 0 <= i < |t| ==> Printable(t[i])
    ensures Readable(Lower(t)) <==> Readable(t)
    ensures Readable(t) ==> Values(Lower(t)) == Values(t)
  {
    hide CharsetRev, LowerCase;
    forall i | 0 <= i < |t|
      ensures CharsetRev(Lower(t)[i]) == CharsetRev(t[i])
    {
      PrintableLower(t[i]);
    }
    if Readable(Lower(t)) {
      assert forall i :: 0 <= i < |t| ==> CharsetRev(Lower(t)[i]).Some?;
    }
  }

  /** Upper-case text means what its lower-case form means. */
  lemma CaseBlind(s: string, limit: nat)
    requires Legal(s)
    ensures Decoded(s, limit) == Decoded(Lower(s), limit)
  {
    hide LowerCase, CharsetRev, Verified, LastSeparator, Values, Readable;
    var t, p := Lower(s), LastSeparator(s);
    forall i | 0 <= i < |s|
      ensures Printable(t[i]) && !IsUpper(t[i]) && (t[i] == SEPARATOR <==> s[i] == SEPARATOR)
    {
      PrintableLower(s[i]);
    }
    SameSeparator(s, t);
    if p > 0 {
      LowerSlices(s, p);
      LowerTwice(s[..p]);
      LowerReads(s[p + 1..]);
    }
  }

  lemma SameSeparator(s: string, t: string)
    requires |s| == |t| && forall i :: 0 <= i < |s| ==> (t[i] == SEPARATOR <==> s[i] == SEPARATOR)
    ensures LastSeparator(s) == LastSeparator(t)
  {
    var p := LastSeparator(s);
    if p >= 0 {
      SeparatorAt(t, p);
    }
  }

  /** Exactly the texts that are, in lower case, the encoding of something are accepted, as that. */
  lemma Accepted(s: string, limit: nat, r: Decoding)
    ensures Decoded(s, limit) == Some(r) <==>
            Legal(s) && |s| <= limit && GoodPrefix(r.hrp) && Lower(s) == Encoded(r.encoding, r.hrp, r.data)
  {
    hide Encoded;
    if Decoded(s, limit) == Some(r) {
      EncodeDecode(s, limit);
    }
    if Legal(s) && |s| <= limit && GoodPrefix(r.hrp) && Lower(s) == Encoded(r.encoding, r.hrp, r.data) {
      CaseBlind(s, limit);
      EncodedParts(r.encoding, r.hrp, r.data);
      DecodeEncode(r.encoding, r.hrp, r.data, limit);
    }
  }

  // ----- Mistyped characters -----

  /** All the symbols an accepted text is checked over. */
  function Checked(r: Decoding): seq<Symbol> {
    Expand(r.hrp) + (r.data + Checksum(Expand(r.hrp) + r.data, EncodingConstant(r.encoding)))
  }

  lemma CheckedIs(r: Decoding)
    ensures PolyMod(Checked(r)) == EncodingConstant(r.encoding)
    ensures |Checked(r)| == 2 * |r.hrp| + 7 + |r.data|
  {
    hide Checksum, PolyMod;
    var x := Expand(r.hrp) + r.data;
    var k := EncodingConstant(r.encoding);
    ChecksumSize(x, k);
    ChecksumExact(x, Checksum(x, k), k);
    assert Checked(r) == x + Checksum(x, k);
  }

  lemma CheckedAt(r: Decoding, q: nat)
    requires |r.hrp| < q < |r.hrp| + 7 + |r.data|
    ensures |Encoded(r.encoding, r.hrp, r.data)| == |r.hrp| + 7 + |r.data|
    ensures |Checked(r)| == 2 * |r.hrp| + 7 + |r.data|
    ensures Letter(Checked(r)[|r.hrp| + q]) == Encoded(r.encoding, r.hrp, r.data)[q]
  {
    hide Checksum, Letter;
    var cs := Checksum(Expand(r.hrp) + r.data, EncodingConstant(r.encoding));
    ChecksumSize(Expand(r.hrp) + r.data, EncodingConstant(r.encoding));
    var h := |r.hrp|;
    assert |Expand(r.hrp)| == 2 * h + 1;
    assert Checked(r)[h + q] == (r.data + cs)[q - h - 1];
    assert Encoded(r.encoding, r.hrp, r.data)[q] == Text(r.data + cs)[q - h - 1];
  }

  lemma SameLetter(v: Symbol, w: Symbol)
    requires Letter(v) == Letter(w)
    ensures v == w
  {
    hide Letter;
    Tables(v, 'q');
    Tables(w, 'q');
  }

  /** Where the texts agree, so do the symbols. */
  lemma SymbolsAgree(r: Decoding, t: Decoding, q: nat)
    requires r.hrp == t.hrp && |r.data| == |t.data|
    requires q < |r.hrp| + 7 + |r.data|
    requires |Encoded(r.encoding, r.hrp, r.data)| == |Encoded(t.encoding, t.hrp, t.data)| == |r.hrp| + 7 + |r.data|
    requires Encoded(r.encoding, r.hrp, r.data)[q] == Encoded(t.encoding, t.hrp, t.data)[q]
    ensures |Checked(r)| == |Checked(t)| == 2 * |r.hrp| + 7 + |r.data|
    ensures q > |r.hrp| ==> Checked(r)[|r.hrp| + q] == Checked(t)[|r.hrp| + q]
  {
    hide Checksum, Letter, Encoded, Checked;
    CheckedIs(r);
    CheckedIs(t);
    if q > |r.hrp| {
      CheckedAt(r, q);
      CheckedAt(t, q);
      SameLetter(Checked(r)[|r.hrp| + q], Checked(t)[|r.hrp| + q]);
    }
  }

  lemma SameStart(r: Decoding, t: Decoding, i: nat)
    requires r.hrp == t.hrp && |r.data| == |t.data| && i < 2 * |r.hrp| + 1
    ensures |Checked(r)| == |Checked(t)| == 2 * |r.hrp| + 7 + |r.data|
    ensures Checked(r)[i] == Checked(t)[i]
  {
    hide Checksum;
    CheckedIs(r);
    CheckedIs(t);
    assert Checked(r)[i] == Expand(r.hrp)[i];
    assert Checked(t)[i] == Expand(t.hrp)[i];
  }

  lemma SameData(r: Decoding, t: Decoding)
    requires r.hrp == t.hrp && |r.data| == |t.data| && Checked(r) == Checked(t)
    ensures r.data == t.data
  {
    hide Checksum;
    var x := 2 * |r.hrp| + 1;
    assert r.data == Checked(r)[x..x + |r.data|];
    assert t.data == Checked(t)[x..x + |t.data|];
  }

  /** Accepted texts of the same length, prefix and kind of checksum. */
  predicate Alike(s: string, t: string, limit: nat) {
    var a, b := Decoded(s, limit), Decoded(t, limit);
    |s| == |t| && a.Some? && b.Some? && a.value.encoding == b.value.encoding && a.value.hrp == b.value.hrp
  }

  lemma AlikeIs(s: string, t: string, limit: nat)
    requires Alike(s, t, limit)
    ensures var a, b := Decoded(s, limit).value, Decoded(t, limit).value;
      var vs, ws := Checked(a), Checked(b);
      && |s| <= limit && |a.data| == |b.data| && |vs| == |ws| == |a.hrp| + |s|
      && PolyMod(vs) == PolyMod(ws)
      && (vs == ws ==> a == b && Lower(s) == Lower(t))
  {
    hide Decoded, LowerCase, Checksum, PolyMod, Encoded, Checked;
    var a, b := Decoded(s, limit).value, Decoded(t, limit).value;
    EncodeDecode(s, limit);
    EncodeDecode(t, limit);
    EncodedParts(a.encoding, a.hrp, a.data);
    EncodedParts(b.encoding, b.hrp, b.data);
    CheckedIs(a);
    CheckedIs(b);
    if Checked(a) == Checked(b) {
      SameData(a, b);
    }
  }

  lemma AlikeAt(s: string, t: string, limit: nat, p: nat)
    requires Alike(s, t, limit)
    requires var h := |Decoded(s, limit).value.hrp|;
      p < h + |s| && (p >= 2 * h + 1 ==> LowerCase(s[p - h]) == LowerCase(t[p - h]))
    ensures var vs, ws := Checked(Decoded(s, limit).value), Checked(Decoded(t, limit).value);
      p < |vs| == |ws| && vs[p] == ws[p]
  {
    hide Decoded, LowerCase, Checksum, PolyMod, Encoded, Checked;
    var a, b := Decoded(s, limit).value, Decoded(t, limit).value;
    AlikeIs(s, t, limit);
    if p < 2 * |a.hrp| + 1 {
      SameStart(a, b, p);
    } else {
      EncodeDecode(s, limit);
      EncodeDecode(t, limit);
      var q := p - |a.hrp|;
      assert Lower(s)[q] == Lower(t)[q];
      EncodedParts(a.encoding, a.hrp, a.data);
      SymbolsAgree(a, b, q);
    }
  }

  /** Accepted texts that are alike and differ in at most three characters, case aside, do not differ. */
  lemma ThreeTypos(s: string, t: string, limit: nat, i: nat, j: nat, k: nat)
    requires limit <= 1023 && Alike(s, t, limit) && i <= j <= k < |s|
    requires forall q :: 0 <= q < |s| && q != i && q != j && q != k ==> LowerCase(s[q]) == LowerCase(t[q])
    ensures Decoded(s, limit) == Decoded(t, limit) && Lower(s) == Lower(t)
  {
    hide Decoded, LowerCase, PolyMod, Checked;
    var h := |Decoded(s, limit).value.hrp|;
    var vs, ws := Checked(Decoded(s, limit).value), Checked(Decoded(t, limit).value);
    AlikeIs(s, t, limit);
    forall p | 0 <= p < |vs| && p != h + i && p != h + j && p != h + k
      ensures vs[p] == ws[p]
    {
      AlikeAt(s, t, limit, p);
    }
    ThreeErrorsDetected(vs, ws, h + i, h + j, h + k);
  }

  /** The same for any changes within six neighbouring characters. */
  lemma SixTypos(s: string, t: string, limit: nat, from: nat)
    requires Alike(s, t, limit) && from <= |s|
    requires forall q :: 0 <= q < |s| && !(from <= q < from + 6) ==> LowerCase(s[q]) == LowerCase(t[q])
    ensures Decoded(s, limit) == Decoded(t, limit) && Lower(s) == Lower(t)
  {
    hide Decoded, LowerCase, PolyMod, Checked;
    var h := |Decoded(s, limit).value.hrp|;
    var vs, ws := Checked(Decoded(s, limit).value), Checked(Decoded(t, limit).value);
    AlikeIs(s, t, limit);
    var lo := h + from;
    var hi := if lo + 6 <= |vs| then lo + 6 else |vs|;
    forall p | 0 <= p < |vs| && !(lo <= p < hi)
      ensures vs[p] == ws[p]
    {
      AlikeAt(s, t, limit, p);
    }
    assert vs[..lo] == ws[..lo] && vs[hi..] == ws[hi..];
    BurstDetected(vs, ws, lo, hi);
  }

  // ----- Mistyped prefixes -----

  lemma CharBack(c: char, d: char)
    requires Printable(c) && Printable(d) && High(c) == High(d) && Low(c) == Low(d)
    ensures c == d
  {
    Small(c as int / 32, d as int / 32);
    Small(c as int % 32, d as int % 32);
  }

  lemma Small(x: int, y: int)
    requires 0 <= x < 32 && 0 <= y < 32 && x as Symbol == y as Symbol
    ensures x == y
  {
    assert (x as Symbol) as int == x && (y as Symbol) as int == y;
  }

  /** The checksum sees every character of a prefix. */
  lemma ExpandBack(x: string, y: string)
    requires |x| == |y| && forall i :: 0 <= i < |x| ==> Printable(x[i]) && Printable(y[i])
    ensures Expand(x) == Expand(y) <==> x == y
  {
    hide High, Low, Printable;
    if Expand(x) == Expand(y) {
      forall i | 0 <= i < |x|
        ensures x[i] == y[i]
      {
        assert Expand(x)[i] == High(x[i]) && Expand(y)[i] == High(y[i]);
        assert Expand(x)[|x| + 1 + i] == Low(x[i]) && Expand(y)[|x| + 1 + i] == Low(y[i]);
        CharBack(x[i], y[i]);
      }
    }
  }

  /** Accepted texts of the same length, prefix length and kind of checksum. */
  predicate Akin(s: string, t: string, limit: nat) {
    var a, b := Decoded(s, limit), Decoded(t, limit);
    |s| == |t| && a.Some? && b.Some? && a.value.encoding == b.value.encoding && |a.value.hrp| == |b.value.hrp|
  }

  lemma AkinIs(s: string, t: string, limit: nat)
    requires Akin(s, t, limit)
    ensures var a, b := Decoded(s, limit).value, Decoded(t, limit).value;
      && |a.data| == |b.data| && |Checked(a)| == |Checked(b)| == |a.hrp| + |s|
      && PolyMod(Checked(a)) == PolyMod(Checked(b))
      && (Checked(a) == Checked(b) ==> a == b && Lower(s) == Lower(t))
  {
    hide Decoded, LowerCase, Checksum, PolyMod, Encoded, Checked, Expand, Printable;
    var a, b := Decoded(s, limit).value, Decoded(t, limit).value;
    EncodeDecode(s, limit);
    EncodeDecode(t, limit);
    EncodedParts(a.encoding, a.hrp, a.data);
    EncodedParts(b.encoding, b.hrp, b.data);
    CheckedIs(a);
    CheckedIs(b);
    if Checked(a) == Checked(b) {
      CheckedStart(a);
      CheckedStart(b);
      ExpandBack(a.hrp, b.hrp);
      SameData(a, b);
    }
  }

  lemma CheckedStart(r: Decoding)
    ensures |Expand(r.hrp)| == 2 * |r.hrp| + 1 <= |Checked(r)| && Checked(r)[..2 * |r.hrp| + 1] == Expand(r.hrp)
  {
    hide Checksum;
  }

  lemma CheckedPrefix(r: Decoding, i: nat)
    requires i < |r.hrp|
    ensures 2 * |r.hrp| + 1 <= |Checked(r)|
    ensures Checked(r)[i] == High(r.hrp[i]) && Checked(r)[|r.hrp| + 1 + i] == Low(r.hrp[i]) && Checked(r)[|r.hrp|] == 0
  {
    hide Checksum, High, Low;
    CheckedStart(r);
    var x := Expand(r.hrp);
    assert x[i] == High(r.hrp[i]) && x[|r.hrp| + 1 + i] == Low(r.hrp[i]) && x[|r.hrp|] == 0;
    assert Checked(r)[..2 * |r.hrp| + 1] == x;
  }

  /** Where the texts agree, so do their lower-case forms. */
  lemma AkinTexts(s: string, t: string, limit: nat, q: nat)
    requires Akin(s, t, limit) && q < |s| && LowerCase(s[q]) == LowerCase(t[q])
    ensures var a, b := Decoded(s, limit).value, Decoded(t, limit).value;
      var x, y := Encoded(a.encoding, a.hrp, a.data), Encoded(b.encoding, b.hrp, b.data);
      |a.hrp| + 7 + |a.data| == |b.hrp| + 7 + |b.data| == |x| == |y| == |s| && x[q] == y[q] && a.hrp != [] && b.hrp != []
  {
    hide Decoded, LowerCase, Checksum, Encoded, Printable;
    var a, b := Decoded(s, limit).value, Decoded(t, limit).value;
    EncodeDecode(s, limit);
    EncodeDecode(t, limit);
    EncodedParts(a.encoding, a.hrp, a.data);
    EncodedParts(b.encoding, b.hrp, b.data);
    assert Lower(s)[q] == Lower(t)[q];
  }

  /** Where the texts agree, so do the symbols, in the prefix as in the data. */
  lemma AkinAt(s: string, t: string, limit: nat, q: nat)
    requires Akin(s, t, limit) && q < |s| && LowerCase(s[q]) == LowerCase(t[q])
    ensures var a, b := Decoded(s, limit).value, Decoded(t, limit).value; var h := |a.hrp|;
      && |Checked(a)| == |Checked(b)| == h + |s| && 2 * h + 1 <= |Checked(a)|
      && (q < h ==> Checked(a)[q] == Checked(b)[q] && Checked(a)[h + 1 + q] == Checked(b)[h + 1 + q])
      && (q > h ==> Checked(a)[h + q] == Checked(b)[h + q])
      && Checked(a)[h] == Checked(b)[h]
  {
    hide Decoded, LowerCase, Checksum, PolyMod, Encoded, Checked, High, Low, Letter, Printable, Lower;
    var a, b := Decoded(s, limit).value, Decoded(t, limit).value;
    AkinTexts(s, t, limit, q);
    CheckedIs(a);
    CheckedIs(b);
    CheckedPrefix(a, 0);
    CheckedPrefix(b, 0);
    if q < |a.hrp| {
      EncodedPrefix(a, q);
      EncodedPrefix(b, q);
      CheckedPrefix(a, q);
      CheckedPrefix(b, q);
    } else if q > |a.hrp| {
      CheckedAt(a, q);
      CheckedAt(b, q);
      SameLetter(Checked(a)[|a.hrp| + q], Checked(b)[|a.hrp| + q]);
    }
  }

  lemma EncodedPrefix(r: Decoding, q: nat)
    requires q < |r.hrp|
    ensures q < |Encoded(r.encoding, r.hrp, r.data)| && Encoded(r.encoding, r.hrp, r.data)[q] == r.hrp[q]
  {
    hide Checksum;
  }

  /** One mistyped character of the prefix, together with one of the data, is found as well. */
  lemma PrefixTypo(s: string, t: string, limit: nat, i: nat, k: nat)
    requires Akin(s, t, limit) && |s| + |Decoded(s, limit).value.hrp| <= 1023
    requires i < |Decoded(s, limit).value.hrp| < k < |s|
    requires forall q :: 0 <= q < |s| && q != i && q != k ==> LowerCase(s[q]) == LowerCase(t[q])
    ensures Decoded(s, limit) == Decoded(t, limit) && Lower(s) == Lower(t)
  {
    hide Decoded, LowerCase, PolyMod, Checked;
    var h := |Decoded(s, limit).value.hrp|;
    var vs, ws := Checked(Decoded(s, limit).value), Checked(Decoded(t, limit).value);
    AkinIs(s, t, limit);
    forall p | 0 <= p < |vs| && p != i && p != h + 1 + i && p != h + k
      ensures vs[p] == ws[p]
    {
      var q := if p < h then p else if p == h then h else if p <= 2 * h then p - h - 1 else p - h;
      AkinAt(s, t, limit, q);
    }
    ThreeErrorsDetected(vs, ws, i, h + 1 + i, h + k);
  }

  // ----- The loops -----

  lemma Assoc(a: Register, b: Register, c: Register)
    ensures Xor(Xor(a, b), c) == Xor(a, Xor(b, c))
  {
    hide Xor;
    XorFacts(a, 0);
    XorFacts(c, 0);
    Regroup(a, b, 0, c);
  }

  /** Adding five terms one after the other adds their sum. */
  lemma OneByOne(x: Register, p0: Register, p1: Register, p2: Register, p3: Register, p4: Register)
    ensures Xor(Xor(Xor(Xor(Xor(x, p0), p1), p2), p3), p4) == Xor(x, Xor(Xor(Xor(p0, p1), Xor(p2, p3)), p4))
  {
    hide Xor;
    Assoc(x, p0, p1);
    Assoc(Xor(x, Xor(p0, p1)), p2, p3);
    Assoc(x, Xor(p0, p1), Xor(p2, p3));
    Assoc(x, Xor(Xor(p0, p1), Xor(p2, p3)), p4);
  }

  method Round(c: Register, v: Symbol) returns (r: Register)
    ensures r == Step(c, v)
  {
    hide Step, Xor, Five, Pick;
    var c0 := c >> 25;
    var x := Xor((c & 0x1ffffff) << 5, v as Register);
    r := x;
    if c0 & 1 != 0 { r := Xor(r, 0x3b6a57b2); }
    assert r == Xor(x, Pick(c0, 1, 0x3b6a57b2)) by { Picked(x, c0, 1, 0x3b6a57b2); }
    var r1 := r;
    if c0 & 2 != 0 { r := Xor(r, 0x26508e6d); }
    assert r == Xor(r1, Pick(c0, 2, 0x26508e6d)) by { Picked(r1, c0, 2, 0x26508e6d); }
    var r2 := r;
    if c0 & 4 != 0 { r := Xor(r, 0x1ea119fa); }
    assert r == Xor(r2, Pick(c0, 4, 0x1ea119fa)) by { Picked(r2, c0, 4, 0x1ea119fa); }
    var r3 := r;
    if c0 & 8 != 0 { r := Xor(r, 0x3d4233dd); }
    assert r == Xor(r3, Pick(c0, 8, 0x3d4233dd)) by { Picked(r3, c0, 8, 0x3d4233dd); }
    var r4 := r;
    if c0 & 16 != 0 { r := Xor(r, 0x2a1462b3); }
    assert r == Xor(r4, Pick(c0, 16, 0x2a1462b3)) by { Picked(r4, c0, 16, 0x2a1462b3); }
    OneByOne(x, Pick(c0, 1, 0x3b6a57b2), Pick(c0, 2, 0x26508e6d), Pick(c0, 4, 0x1ea119fa),
             Pick(c0, 8, 0x3d4233dd), Pick(c0, 16, 0x2a1462b3));
    StepIs(c, v);
  }

  lemma Picked(x: Register, c0: Register, bit: Register, k: Register)
    ensures Xor(x, Pick(c0, bit, k)) == if c0 & bit != 0 then Xor(x, k) else x
  {
    hide Xor;
    XorFacts(x, 0);
  }

  lemma StepIs(c: Register, v: Symbol)
    ensures var c0 := c >> 25;
      Step(c, v) == Xor(Xor((c & 0x1ffffff) << 5, v as Register),
        Xor(Xor(Xor(Pick(c0, 1, 0x3b6a57b2), Pick(c0, 2, 0x26508e6d)),
                Xor(Pick(c0, 4, 0x1ea119fa), Pick(c0, 8, 0x3d4233dd))), Pick(c0, 16, 0x2a1462b3)))
  {
    hide Xor, Pick;
  }

  method ComputePolyMod(vs: seq<Symbol>) returns (c: Register)
    ensures c == PolyMod(vs)
  {
    hide Step;
    c := 1;
    var i := 0;
    while i < |vs|
      invariant 0 <= i <= |vs|
      invariant c == Fold(1, vs[..i])
    {
      FoldLast(1, vs, i);
      c := Round(c, vs[i]);
      i := i + 1;
    }
    assert vs[..i] == vs;
  }

  method PreparePolynomialCoefficients(hrp: string, values: seq<Symbol>) returns (ret: seq<Symbol>)
    ensures ret == Expand(hrp) + values
  {
    hide High, Low;
    ret := [];
    var i := 0;
    while i < |hrp|
      invariant 0 <= i <= |hrp| && ret == Highs(hrp)[..i]
    {
      ret := ret + [High(hrp[i])];
      i := i + 1;
    }
    ret := ret + [0];
    i := 0;
    while i < |hrp|
      invariant 0 <= i <= |hrp| && ret == Highs(hrp) + [0] + Lows(hrp)[..i]
    {
      ret := ret + [Low(hrp[i])];
      i := i + 1;
    }
    ret := ret + values;
  }

  method VerifyChecksum(hrp: string, values: seq<Symbol>) returns (e: Option<Encoding>)
    ensures e == Verified(hrp, values)
  {
    var enc := PreparePolynomialCoefficients(hrp, values);
    var check := ComputePolyMod(enc);
    if check == EncodingConstant(BECH32) { return Some(BECH32); }
    if check == EncodingConstant(BECH32M) { return Some(BECH32M); }
    return None;
  }

  method CreateChecksum(e: Encoding, hrp: string, values: seq<Symbol>) returns (ret: seq<Symbol>)
    ensures |ret| == CHECKSUM_SIZE
    ensures forall cs: seq<Symbol> | |cs| == CHECKSUM_SIZE :: Verified(hrp, values + cs) == Some(e) <==> cs == ret
  {
    hide Group, PolyMod, Xor;
    var enc := PreparePolynomialCoefficients(hrp, values);
    var mod := ComputePolyMod(enc + ZEROES);
    mod := Xor(mod, EncodingConstant(e));
    ret := [];
    var i := 0;
    while i < CHECKSUM_SIZE
      invariant 0 <= i <= CHECKSUM_SIZE && ret == Groups(mod)[..i]
    {
      ret := ret + [Group(mod, i)];
      i := i + 1;
    }
    forall cs: seq<Symbol> | |cs| == CHECKSUM_SIZE
      ensures Verified(hrp, values + cs) == Some(e) <==> cs == ret
    {
      VerifiedIff(hrp, values, cs, e);
    }
  }

  method AppendText(s: string, vs: seq<Symbol>) returns (ret: string)
    ensures ret == s + Text(vs)
  {
    hide Letter;
    ret := s;
    var i := 0;
    while i < |vs|
      invariant 0 <= i <= |vs| && ret == s + Text(vs)[..i]
    {
      ret := ret + [Letter(vs[i])];
      i := i + 1;
    }
  }

  /** Encode a Bech32 or Bech32m text. */
  method Encode(e: Encoding, hrp: string, values: seq<Symbol>) returns (ret: string)
    requires forall i :: 0 <= i < |hrp| ==> !IsUpper(hrp[i])
    ensures ret == Encoded(e, hrp, values)
  {
    hide Letter, Checksum, Verified, Expand;
    ret := AppendText(hrp + [SEPARATOR], values);
    var cs := CreateChecksum(e, hrp, values);
    VerifiedIff(hrp, values, cs, e);
    ret := AppendText(ret, cs);
    assert Text(values + cs) == Text(values) + Text(cs);
  }

  method FindSeparator(s: string) returns (p: int)
    ensures p == LastSeparator(s)
  {
    p := |s| - 1;
    while p >= 0 && s[p] != SEPARATOR
      invariant -1 <= p < |s|
      invariant forall i :: p < i < |s| ==> s[i] != SEPARATOR
    {
      p := p - 1;
    }
    if p >= 0 {
      SeparatorAt(s, p);
    }
  }

  /** Decode a Bech32 or Bech32m text. */
  method Decode(s: string, limit: nat) returns (r: Option<Decoding>)
    ensures r == Decoded(s, limit)
  {
    hide CharsetRev, LowerCase, Verified, LastSeparator;
    var ok, errors := CheckCharacters(s);
    if !ok { return None; }
    var pos := FindSeparator(s);
    if |s| > limit { return None; }
    if pos == -1 || pos == 0 || pos + CHECKSUM_SIZE >= |s| { return None; }
    var t := s[pos + 1..];
    var values: seq<Symbol> := [];
    var i := 0;
    while i < |t|
      invariant 0 <= i <= |t| && Readable(t[..i]) && values == Values(t[..i])
    {
      var rev := CharsetRev(t[i]);
      if rev.None? {
        assert !Readable(t);
        return None;
      }
      assert t[..i + 1] == t[..i] + [t[i]];
      values := values + [rev.value];
      i := i + 1;
    }
    assert t[..i] == t;
    var hrp := "";
    i := 0;
    while i < pos
      invariant 0 <= i <= pos && hrp == Lower(s[..pos])[..i]
    {
      hrp := hrp + [LowerCase(s[i])];
      i := i + 1;
    }
    assert hrp == Lower(s[..pos]) && values == Values(s[pos + 1..]) && Readable(s[pos + 1..]);
    var result := VerifyChecksum(hrp, values);
    if result.None? { return None; }
    r := Some(Decoding(result.value, hrp, values[..|values| - CHECKSUM_SIZE]));
  }
}

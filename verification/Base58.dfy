/**
 Base58 text: encoding and decoding, with the carry loops in place, and that they undo each other.
 */
module Base58 {
  import opened Basics
  import opened Radix
  import opened Base58Carry

  /** The digits and the letters without the four that are easily misread. */
  const ALPHABET := "123456789" + ("ABCDEFGH" + ("JKLMN" + ("PQRSTUVWXYZ" + ("abcdefghijk" + "mnopqrstuvwxyz"))))

  /** The decoding table, row by row; -1 for characters outside the alphabet. */
  function MapBase58(c: char): (d: int)
    ensures -1 <= d < 58
  {
    if '1' <= c <= '9' then c as int - 49
    else if 'A' <= c <= 'H' then c as int - 56
    else if 'J' <= c <= 'N' then c as int - 57
    else if 'P' <= c <= 'Z' then c as int - 58
    else if 'a' <= c <= 'k' then c as int - 64
    else if 'm' <= c <= 'z' then c as int - 65
    else -1
  }

  /** A run of consecutive characters. */
  ghost predicate Consecutive(s: string, first: char) {
    forall i :: 0 <= i < |s| ==> s[i] as int == first as int + i
  }

  lemma Runs()
    ensures Consecutive("123456789", '1')
    ensures Consecutive("ABCDEFGH", 'A')
    ensures Consecutive("JKLMN", 'J')
    ensures Consecutive("PQRSTUVWXYZ", 'P')
    ensures Consecutive("abcdefghijk", 'a')
    ensures Consecutive("mnopqrstuvwxyz", 'm')
  {
  }

  lemma AlphabetAt(i: nat)
    requires i < 58
    ensures |ALPHABET| == 58
    ensures var shift := if i < 9 then 49 else if i < 17 then 56 else if i < 22 then 57
                         else if i < 33 then 58 else if i < 44 then 64 else 65;
      ALPHABET[i] as int == i + shift
  {
    Runs();
    var k := "mnopqrstuvwxyz";
    var j := "abcdefghijk" + k;
    var h := "PQRSTUVWXYZ" + j;
    var g := "JKLMN" + h;
    var f := "ABCDEFGH" + g;
    assert ALPHABET == "123456789" + f;
  }

  /** The table is the inverse of the alphabet. */
  lemma TableInverse(i: nat, c: char)
    requires i < 58
    ensures |ALPHABET| == 58
    ensures MapBase58(ALPHABET[i]) == i
    ensures MapBase58(c) >= 0 ==> ALPHABET[MapBase58(c)] == c
  {
    AlphabetAt(i);
    if MapBase58(c) >= 0 {
      AlphabetAt(MapBase58(c));
    }
  }

  predicate IsSpace(c: char) {
    c == ' ' || c == '\U{0C}' || c == '\n' || c == '\r' || c == '\t' || c == '\U{0B}'
  }

  function Letter(d: int): (c: char)
    requires 0 <= d < 58
    ensures MapBase58(c) == d
  {
    TableInverse(d, '1');
    ALPHABET[d]
  }

  lemma LetterOf(c: char)
    requires MapBase58(c) >= 0
    ensures Letter(MapBase58(c)) == c && !IsSpace(c)
  {
    TableInverse(0, c);
  }

  // ----- What the text means -----

  predicate InAlphabet(s: string) {
    forall i :: 0 <= i < |s| ==> MapBase58(s[i]) >= 0
  }

  function Text(ds: seq<int>): string
    requires DigitsIn(58, ds)
  {
    seq(|ds|, i requires 0 <= i < |ds| => Letter(ds[i]))
  }

  function Code(s: string): seq<int> {
    seq(|s|, i requires 0 <= i < |s| => MapBase58(s[i]))
  }

  /** The number of zeroes a digit string starts with. */
  function Leading(ds: seq<int>): (n: nat)
    ensures n <= |ds|
    ensures forall i :: 0 <= i < n ==> ds[i] == 0
    ensures n < |ds| ==> ds[n] != 0
  {
    if ds == [] || ds[0] != 0 then 0 else 1 + Leading(ds[1..])
  }

  /** Rewrite a digit string in another base, keeping its leading zeroes. */
  function Convert(from: nat, to: nat, ds: seq<int>): seq<int>
    requires to >= 2 && DigitsIn(from, ds)
  {
    ValueBound(from, ds);
    Zeroes(Leading(ds)) + Digits(to, Value(from, ds))
  }

  function TrimLeft(s: string): string {
    if s != [] && IsSpace(s[0]) then TrimLeft(s[1..]) else s
  }

  function TrimRight(s: string): string {
    if s != [] && IsSpace(s[|s| - 1]) then TrimRight(s[..|s| - 1]) else s
  }

  function Trim(s: string): string {
    TrimRight(TrimLeft(s))
  }

  lemma ConvertIn(from: nat, to: nat, ds: seq<int>)
    requires to >= 2 && DigitsIn(from, ds)
    ensures DigitsIn(to, Convert(from, to, ds))
  {
    ValueBound(from, ds);
    DigitsAre(to, Value(from, ds));
  }

  function Encoded(bytes: seq<int>): string
    requires DigitsIn(256, bytes)
  {
    ConvertIn(256, 58, bytes);
    Text(Convert(256, 58, bytes))
  }

  /** What decoding yields, if the text decodes and, unless it is blank, the result is short enough. */
  function Decoded(s: string, maxLen: int): Option<seq<int>> {
    var core := Trim(s);
    if !InAlphabet(core) then None
    else
      var bytes := Convert(58, 256, Code(core));
      if core != [] && |bytes| > maxLen then None else Some(bytes)
  }

  // ----- The two directions undo each other -----

  lemma LeadingZeroed(n: nat, ds: seq<int>)
    requires ds == [] || ds[0] != 0
    ensures Leading(Zeroes(n) + ds) == n
  {
    var k := Leading(Zeroes(n) + ds);
    assert forall i :: 0 <= i < n ==> (Zeroes(n) + ds)[i] == 0;
    assert ds != [] ==> (Zeroes(n) + ds)[n] == ds[0];
  }

  /** Converting to another base and back gives the digit string again. */
  lemma ConvertBack(from: nat, to: nat, ds: seq<int>)
    requires from >= 2 && to >= 2 && DigitsIn(from, ds)
    ensures DigitsIn(to, Convert(from, to, ds))
    ensures Convert(to, from, Convert(from, to, ds)) == ds
  {
    ConvertIn(from, to, ds);
    ValueBound(from, ds);
    var n, v := Leading(ds), Value(from, ds);
    var there := Convert(from, to, ds);
    DigitsAre(to, v);
    LeadingZeroed(n, Digits(to, v));
    LeadingZeroes(to, Zeroes(n), Digits(to, v));
    assert Value(to, there) == v;
    var rest := ds[n..];
    assert ds == Zeroes(n) + rest;
    LeadingZeroes(from, Zeroes(n), rest);
    DigitsUnique(from, rest);
  }

  lemma TextCode(ds: seq<int>)
    requires DigitsIn(58, ds)
    ensures InAlphabet(Text(ds)) && Code(Text(ds)) == ds
  {
    hide Letter;
  }

  lemma CodeText(s: string)
    requires InAlphabet(s)
    ensures DigitsIn(58, Code(s)) && Text(Code(s)) == s
  {
    hide Letter;
    forall i | 0 <= i < |s| ensures Letter(MapBase58(s[i])) == s[i] { LetterOf(s[i]); }
  }

  lemma TrimText(s: string)
    requires InAlphabet(s)
    ensures Trim(s) == s
  {
    if s != [] {
      LetterOf(s[0]);
      LetterOf(s[|s| - 1]);
    }
  }

  /** Decoding the encoding of any bytes gives them back. */
  lemma DecodeEncode(bytes: seq<int>, maxLen: int)
    requires DigitsIn(256, bytes) && maxLen >= |bytes|
    ensures Decoded(Encoded(bytes), maxLen) == Some(bytes)
  {
    hide Text, Code, Convert, Trim, InAlphabet;
    ConvertIn(256, 58, bytes);
    TextCode(Convert(256, 58, bytes));
    TrimText(Encoded(bytes));
    ConvertBack(256, 58, bytes);
  }

  /** Encoding any successfully decoded text gives that text without surrounding spaces. */
  lemma EncodeDecode(s: string, maxLen: int)
    requires Decoded(s, maxLen).Some?
    ensures DigitsIn(256, Decoded(s, maxLen).value)
    ensures Encoded(Decoded(s, maxLen).value) == Trim(s)
  {
    hide Text, Code, Convert, Trim, InAlphabet;
    CodeText(Trim(s));
    ConvertIn(58, 256, Code(Trim(s)));
    ConvertBack(58, 256, Code(Trim(s)));
  }

  lemma SameTrim(s: string, t: string, maxLen: int)
    requires Trim(s) == Trim(t)
    ensures Decoded(s, maxLen) == Decoded(t, maxLen)
  {
  }

  lemma EncodedNone()
    ensures Encoded([]) == []
  {
    hide Text;
    ConvertBack(256, 58, []);
    NoText(Convert(256, 58, []));
  }

  lemma LimitKept(s: string, maxLen: int)
    requires Decoded(s, maxLen).Some?
    ensures Trim(s) == [] || |Decoded(s, maxLen).value| <= maxLen
  {
  }

  /** A text is decoded to some bytes if and only if, without surrounding spaces, it is their encoding and they are
      within the limit. */
  lemma DecodedIff(s: string, maxLen: int, bytes: seq<int>)
    requires DigitsIn(256, bytes)
    ensures Decoded(s, maxLen) == Some(bytes) <==> Encoded(bytes) == Trim(s) && (bytes == [] || |bytes| <= maxLen)
  {
    hide Decoded, Encoded, Trim;
    if Decoded(s, maxLen) == Some(bytes) {
      EncodeDecode(s, maxLen);
      LimitKept(s, maxLen);
      if Trim(s) == [] {
        EmptyDecodes(s, maxLen);
      }
    }
    if Encoded(bytes) == Trim(s) && (bytes == [] || |bytes| <= maxLen) {
      TrimEncoded(bytes);
      SameTrim(s, Encoded(bytes), maxLen);
      if bytes == [] {
        EncodedNone();
        EmptyDecodes(s, maxLen);
      } else {
        DecodeEncode(bytes, maxLen);
      }
    }
  }

  lemma TrimEncoded(bytes: seq<int>)
    requires DigitsIn(256, bytes)
    ensures Trim(Encoded(bytes)) == Encoded(bytes)
  {
    hide Text, Code, Convert, Trim, InAlphabet;
    ConvertIn(256, 58, bytes);
    TextCode(Convert(256, 58, bytes));
    TrimText(Encoded(bytes));
  }

  lemma EmptyDecodes(s: string, maxLen: int)
    requires Trim(s) == []
    ensures Decoded(s, maxLen) == Some([])
  {
    assert Convert(58, 256, []) == [];
  }

  // ----- The encoder -----

  method Encode(input: seq<int>) returns (str: string)
    requires DigitsIn(256, input)
    ensures str == Encoded(input)
  {
    hide Value, Text, Letter, Encoded, Digits;
    var zeroes := 0;
    while zeroes < |input| && input[zeroes] == 0
      invariant zeroes <= |input| && forall i :: 0 <= i < zeroes ==> input[i] == 0
    {
      zeroes := zeroes + 1;
    }
    var digits := ToBase58(input[zeroes..]);
    EncodedParts(input, zeroes, digits);
    str := Ones(zeroes);
    var it := 0;
    assert digits[0..] == digits;
    while it < |digits|
      invariant 0 <= it <= |digits|
      invariant str + Text(digits[it..]) == Encoded(input)
    {
      assert digits[it..] == [digits[it]] + digits[it + 1..];
      TextCons(digits[it], digits[it + 1..]);
      str := str + [Letter(digits[it])];
      it := it + 1;
    }
    NoText(digits[it..]);
  }

  /** The middle of the encoder: big-endian base 58 in a buffer, then past its leading zeroes. */
  method ToBase58(rest: seq<int>) returns (digits: seq<int>)
    requires DigitsIn(256, rest)
    ensures Value(256, rest) >= 0 && digits == Digits(58, Value(256, rest))
  {
    hide Value, Pow, Digits;
    var size := |rest| * 138 / 100 + 1;
    var b58 := new int[size](_ => 0);
    var length := 0;
    BlankBuffer(58, b58[..]);
    EncoderFits(|rest|);
    NoValue(256, rest);
    for k := 0 to |rest|
      invariant DigitsIn(58, b58[..]) && InUse(b58[..], length)
      invariant Value(58, b58[..]) == Value(256, rest[..k])
    {
      assert rest[..k + 1] == rest[..k] + [rest[k]];
      PrefixFits(256, rest, k + 1);
      ValueSnoc(256, rest[..k], rest[k]);
      length := MulAdd(b58, 58, 256, rest[k], length);
    }
    assert rest[..|rest|] == rest;
    DigitsInUse(58, b58[..], length);
    // The digits in use already start with a non-zero one, so nothing is skipped here.
    var it := SkipZeroes(b58[..], size - length);
    assert it == size - length;
    digits := b58[..][it..];
  }

  method SkipZeroes(ds: seq<int>, from: nat) returns (it: nat)
    requires from <= |ds|
    ensures from <= it <= |ds| && (it < |ds| ==> ds[it] != 0)
    ensures forall i :: from <= i < it ==> ds[i] == 0
  {
    it := from;
    while it < |ds| && ds[it] == 0
      invariant from <= it <= |ds|
      invariant forall i :: from <= i < it ==> ds[i] == 0
    {
      it := it + 1;
    }
  }

  function Ones(n: nat): string {
    seq(n, _ => '1')
  }

  lemma BlankBuffer(base: nat, ds: seq<int>)
    requires base >= 2 && forall i :: 0 <= i < |ds| ==> ds[i] == 0
    ensures DigitsIn(base, ds) && InUse(ds, 0) && Value(base, ds) == 0
  {
    assert ds + [] == ds;
    LeadingZeroes(base, ds, []);
  }

  lemma NoValue(base: nat, ds: seq<int>)
    ensures Value(base, ds[..0]) == 0
  {
  }

  lemma PrefixFits(base: nat, ds: seq<int>, k: nat)
    requires base >= 1 && k <= |ds| && DigitsIn(base, ds)
    ensures DigitsIn(base, ds[..k]) && Value(base, ds[..k]) < Pow(base, |ds|)
  {
    ValueBound(base, ds[..k]);
    PowMonotone(base, k, |ds|);
  }

  /** The digits in use are the digits of the value. */
  lemma DigitsInUse(base: nat, ds: seq<int>, length: nat)
    requires base >= 2 && DigitsIn(base, ds) && InUse(ds, length)
    ensures Value(base, ds) >= 0 && ds[|ds| - length..] == Digits(base, Value(base, ds))
  {
    var n := |ds| - length;
    assert ds == ds[..n] + ds[n..];
    LeadingZeroes(base, ds[..n], ds[n..]);
    DigitsUnique(base, ds[n..]);
  }

  lemma EncodedParts(input: seq<int>, zeroes: nat, ds: seq<int>)
    requires DigitsIn(256, input) && zeroes <= |input|
    requires forall i :: 0 <= i < zeroes ==> input[i] == 0
    requires zeroes < |input| ==> input[zeroes] != 0
    requires Value(256, input[zeroes..]) >= 0 && ds == Digits(58, Value(256, input[zeroes..]))
    ensures DigitsIn(58, ds) && Ones(zeroes) + Text(ds) == Encoded(input)
  {
    hide Value, Letter;
    assert Leading(input) == zeroes;
    assert input == input[..zeroes] + input[zeroes..];
    LeadingZeroes(256, input[..zeroes], input[zeroes..]);
    ConvertIn(256, 58, input);
    var all := Convert(256, 58, input);
    assert all == Zeroes(zeroes) + ds;
    forall i | 0 <= i < |ds| ensures 0 <= ds[i] < 58 { assert ds[i] == all[zeroes + i]; }
    ZeroLetter();
    assert forall i :: 0 <= i < |all| ==> Text(all)[i] == (Ones(zeroes) + Text(ds))[i];
  }

  lemma ZeroLetter()
    ensures Letter(0) == '1'
  {
    LetterOf('1');
  }

  lemma TextCons(d: int, ds: seq<int>)
    requires DigitsIn(58, [d] + ds)
    ensures DigitsIn(58, ds) && 0 <= d < 58 && Text([d] + ds) == [Letter(d)] + Text(ds)
  {
    hide Letter;
    assert ([d] + ds)[0] == d;
    forall i | 0 <= i < |ds| ensures 0 <= ds[i] < 58 { assert ([d] + ds)[i + 1] == ds[i]; }
  }

  lemma NoText(ds: seq<int>)
    requires ds == []
    ensures Text(ds) == []
  {
  }

  // ----- The decoder -----

  /** Trimming on the right stops after the last character that is not a space. */
  lemma {:induction false} TrimRightIs(s: string)
    ensures TrimRight(s) <= s
    ensures forall k :: 0 <= k < |s| && !IsSpace(s[k]) ==> k < |TrimRight(s)|
    ensures TrimRight(s) == [] || !IsSpace(TrimRight(s)[|TrimRight(s)| - 1])
    decreases |s|
  {
    if s != [] && IsSpace(s[|s| - 1]) {
      TrimRightIs(s[..|s| - 1]);
    }
  }

  lemma {:induction false} TrimLeftIs(s: string, p: nat)
    requires p <= |s| && (forall i :: 0 <= i < p ==> IsSpace(s[i])) && (p < |s| ==> !IsSpace(s[p]))
    ensures TrimLeft(s) == s[p..]
    decreases p
  {
    if p > 0 {
      TrimLeftIs(s[1..], p - 1);
      assert s[1..][p - 1..] == s[p..];
    }
  }

  /** A text is a run of characters without spaces, then spaces only, exactly when trimming leaves that run. */
  lemma TrimRightAt(t: string, k: nat)
    requires k <= |t| && (forall i :: 0 <= i < k ==> !IsSpace(t[i])) && (forall i :: k <= i < |t| ==> IsSpace(t[i]))
    ensures TrimRight(t) == t[..k]
  {
    TrimRightIs(t);
    var m := |TrimRight(t)|;
    assert TrimRight(t) == t[..m];
    assert m > 0 ==> !IsSpace(t[m - 1]);
    assert k > 0 ==> !IsSpace(t[k - 1]);
  }

  /** A character outside the alphabet before the end of the trimmed text makes it undecodable. */
  lemma Undecodable(t: string, k: nat, last: nat)
    requires k <= last < |t| && MapBase58(t[k]) < 0 && !IsSpace(t[last])
    ensures !InAlphabet(TrimRight(t))
  {
    TrimRightIs(t);
    assert TrimRight(t)[k] == t[k];
  }

  lemma CodePrefix(t: string, k: nat)
    requires k <= |t|
    ensures Code(t)[..k] == Code(t[..k])
  {
  }

  /** Appending digits makes neither the value nor the number of digits smaller. */
  lemma {:induction false} ValueGrows(base: nat, ds: seq<int>, k: nat)
    requires base >= 1 && k <= |ds| && DigitsIn(base, ds)
    ensures Value(base, ds[..k]) <= Value(base, ds)
    decreases |ds| - k
  {
    if k < |ds| {
      ValueGrows(base, ds, k + 1);
      assert ds[..k + 1] == ds[..k] + [ds[k]];
      ValueSnoc(base, ds[..k], ds[k]);
      ValueBound(base, ds[..k]);
      MulLe(1, base, Value(base, ds[..k]));
    } else {
      assert ds[..k] == ds;
    }
  }

  lemma DivGrows(base: nat, v: nat, w: nat)
    requires base >= 2 && v <= w
    ensures v / base <= w / base
  {
    DivMod(v, base);
    DivMod(w, base);
    if v / base > w / base {
      MulLe(w / base + 1, v / base, base);
      assert false;
    }
  }

  lemma {:induction false} DigitsGrow(base: nat, v: nat, w: nat)
    requires base >= 2 && v <= w
    ensures |Digits(base, v)| <= |Digits(base, w)|
    decreases w
  {
    if v > 0 {
      DivMod(v, base);
      DivMod(w, base);
      DivGrows(base, v, w);
      DigitsGrow(base, v / base, w / base);
    }
  }

  /** A decodable text whose beginning already needs too many bytes is refused. */
  lemma TooLong(s: string, t: string, k: nat, zeroes: nat, length: nat, maxLen: int)
    requires t == TrimLeft(s) && 0 < k <= |t| && InAlphabet(t[..k])
    requires zeroes <= k && (forall i :: 0 <= i < zeroes ==> MapBase58(t[i]) == 0)
    requires zeroes < k ==> MapBase58(t[zeroes]) != 0
    requires Value(58, Code(t[..k])) >= 0 && length == |Digits(256, Value(58, Code(t[..k])))|
    requires length + zeroes > maxLen
    ensures Decoded(s, maxLen) == None
  {
    hide Value, Digits;
    var core := Trim(s);
    TrimRightIs(t);
    LetterOf(t[..k][k - 1]);
    assert core[..k] == t[..k];
    if InAlphabet(core) {
      var code := Code(core);
      CodePrefix(core, k);
      CodeText(core);
      ValueGrows(58, code, k);
      DigitsGrow(256, Value(58, Code(t[..k])), Value(58, code));
      assert Leading(code) >= zeroes by { LeadingAtLeast(code, zeroes); }
    }
  }

  lemma LeadingAtLeast(ds: seq<int>, n: nat)
    requires n <= |ds| && forall i :: 0 <= i < n ==> ds[i] == 0
    ensures Leading(ds) >= n
  {
  }

  method Decode(str: string, maxLen: int) returns (r: Option<seq<int>>)
    ensures r == Decoded(str, maxLen)
  {
    hide Value, Digits, Decoded;
    var p := 0;
    while p < |str| && IsSpace(str[p])
      invariant p <= |str| && forall i :: 0 <= i < p ==> IsSpace(str[i])
    {
      p := p + 1;
    }
    TrimLeftIs(str, p);
    var t := str[p..];
    var zeroes := 0;
    while zeroes < |t| && t[zeroes] == '1'
      invariant zeroes <= |t| && forall i :: 0 <= i < zeroes ==> t[i] == '1'
      invariant zeroes > 0 ==> zeroes <= maxLen
    {
      zeroes := zeroes + 1;
      if zeroes > maxLen {
        OnesTooLong(str, t, zeroes, maxLen);
        return None;
      }
    }
    r := DecodeBody(str, t, zeroes, maxLen);
  }

  lemma OnesTooLong(s: string, t: string, zeroes: nat, maxLen: int)
    requires t == TrimLeft(s) && 0 < zeroes <= |t| && zeroes > maxLen
    requires forall i :: 0 <= i < zeroes ==> t[i] == '1'
    ensures Decoded(s, maxLen) == None
  {
    hide Value, Digits;
    var code := Code(t[..zeroes]);
    assert forall i :: 0 <= i < zeroes ==> code[i] == 0;
    assert code + [] == code;
    LeadingZeroes(58, code, []);
    assert Value(58, code) == 0 by { NoValue(58, []); }
    TooLong(s, t, zeroes, zeroes, |Digits(256, 0)|, maxLen);
  }

  lemma NoSpaceInAlphabet(c: char)
    ensures IsSpace(c) ==> MapBase58(c) == -1
  {
  }

  method SkipSpaces(t: string, k: nat) returns (q: nat)
    requires k <= |t|
    ensures k <= q <= |t| && (forall i :: k <= i < q ==> IsSpace(t[i])) && (q < |t| ==> !IsSpace(t[q]))
  {
    q := k;
    while q < |t| && IsSpace(t[q])
      invariant k <= q <= |t| && forall i :: k <= i < q ==> IsSpace(t[i])
    {
      q := q + 1;
    }
  }

  /** The digits up to the first space, into the buffer; refuses a foreign character and a number too long. */
  method DecodeDigits(ghost str: string, t: string, zeroes: nat, maxLen: int, b256: array<int>)
    returns (ok: bool, k: nat, length: nat)
    requires t == TrimLeft(str) && zeroes <= |t| && (forall i :: 0 <= i < zeroes ==> t[i] == '1')
    requires zeroes < |t| ==> t[zeroes] != '1'
    requires b256.Length == (|t| - zeroes) * 733 / 1000 + 1 && forall i :: 0 <= i < b256.Length ==> b256[i] == 0
    modifies b256
    ensures !ok ==> Decoded(str, maxLen) == None
    ensures ok ==> zeroes <= k <= |t| && (k < |t| ==> IsSpace(t[k])) && (k > zeroes ==> length + zeroes <= maxLen)
    ensures ok ==> InAlphabet(t[..k]) && DigitsIn(58, Code(t[..k])) && length <= b256.Length
    ensures ok ==> DigitsIn(256, b256[..]) && InUse(b256[..], length) && Value(256, b256[..]) == Value(58, Code(t[..k]))
  {
    hide Value, Pow, Digits, Decoded, InUse, IsSpace, TrimLeft, MapBase58;
    length, k := 0, zeroes;
    BlankBuffer(256, b256[..]);
    DecoderFits(|t| - zeroes);
    BodyStart(t, zeroes);
    while k < |t| && !IsSpace(t[k])
      invariant zeroes <= k <= |t| && InAlphabet(t[..k]) && DigitsIn(58, Code(t[..k]))
      invariant DigitsIn(256, b256[..]) && InUse(b256[..], length) && length <= b256.Length
      invariant Value(256, b256[..]) == Value(58, Code(t[..k]))
      invariant k > zeroes ==> length + zeroes <= maxLen
    {
      var carry := MapBase58(t[k]);
      if carry == -1 {
        Undecodable(t, k, k);
        DecodedNone(str, maxLen);
        return false, k, length;
      }
      DigitOf(t[k]);
      BodyStep(t, zeroes, k);
      length := MulAdd(b256, 256, 58, carry, length);
      k := k + 1;
      if length + zeroes > maxLen {
        DigitsInUse(256, b256[..], length);
        OnesAreZero(t, zeroes);
        TooLong(str, t, k, zeroes, length, maxLen);
        return false, k, length;
      }
    }
    ok := true;
  }

  lemma DigitOf(c: char)
    ensures MapBase58(c) >= -1
  {
  }

  /** Only the first letter of the alphabet has the digit zero. */
  lemma OnesAreZero(t: string, n: nat)
    requires n <= |t| && forall i :: 0 <= i < n ==> t[i] == '1'
    ensures forall i :: 0 <= i < n ==> MapBase58(t[i]) == 0
    ensures n < |t| && t[n] != '1' ==> MapBase58(t[n]) != 0
  {
  }

  /** The characters after the leading ones: big-endian base 256 in a buffer. */
  method DecodeBody(ghost str: string, t: string, zeroes: nat, maxLen: int) returns (r: Option<seq<int>>)
    requires t == TrimLeft(str) && zeroes <= |t| && (forall i :: 0 <= i < zeroes ==> t[i] == '1')
    requires zeroes < |t| ==> t[zeroes] != '1'
    requires zeroes > 0 ==> zeroes <= maxLen
    ensures r == Decoded(str, maxLen)
  {
    hide Value, Pow, Digits, Decoded, InUse, IsSpace, TrimLeft, MapBase58;
    var size := (|t| - zeroes) * 733 / 1000 + 1;
    var b256 := new int[size](_ => 0);
    var ok, k, length := DecodeDigits(str, t, zeroes, maxLen, b256);
    if !ok { return None; }
    DigitsInUse(256, b256[..], length);
    var q := SkipSpaces(t, k);
    if q < |t| {
      NoSpaceInAlphabet(t[k]);
      Undecodable(t, k, q);
      DecodedNone(str, maxLen);
      return None;
    }
    DecodedIs(str, t, k, zeroes, maxLen);
    return Some(Zeroes(zeroes) + b256[..][size - length..]);
  }

  lemma BodyStart(t: string, zeroes: nat)
    requires zeroes <= |t| && forall i :: 0 <= i < zeroes ==> t[i] == '1'
    ensures InAlphabet(t[..zeroes]) && DigitsIn(58, Code(t[..zeroes])) && Value(58, Code(t[..zeroes])) == 0
  {
    var code := Code(t[..zeroes]);
    assert forall i :: 0 <= i < zeroes ==> code[i] == 0;
    assert code + [] == code;
    LeadingZeroes(58, code, []);
  }

  lemma BodyStep(t: string, zeroes: nat, k: nat)
    requires zeroes <= k < |t| && InAlphabet(t[..k]) && MapBase58(t[k]) >= 0
    requires forall i :: 0 <= i < zeroes ==> t[i] == '1'
    requires Pow(58, |t| - zeroes) <= Pow(256, (|t| - zeroes) * 733 / 1000 + 1)
    ensures InAlphabet(t[..k + 1]) && DigitsIn(58, Code(t[..k + 1]))
    ensures Value(58, Code(t[..k + 1])) == 58 * Value(58, Code(t[..k])) + MapBase58(t[k])
    ensures Value(58, Code(t[..k + 1])) < Pow(256, (|t| - zeroes) * 733 / 1000 + 1)
  {
    hide Value, Pow;
    var code := Code(t[..k + 1]);
    assert code == Code(t[..k]) + [MapBase58(t[k])];
    ValueSnoc(58, Code(t[..k]), MapBase58(t[k]));
    assert code == code[..zeroes] + code[zeroes..];
    LeadingZeroes(58, code[..zeroes], code[zeroes..]);
    ValueBound(58, code[zeroes..]);
    PowMonotone(58, k + 1 - zeroes, |t| - zeroes);
  }

  lemma DecodedNone(s: string, maxLen: int)
    requires !InAlphabet(Trim(s))
    ensures Decoded(s, maxLen) == None
  {
  }

  lemma DecodedIs(s: string, t: string, k: nat, zeroes: nat, maxLen: int)
    requires t == TrimLeft(s) && zeroes <= k <= |t| && InAlphabet(t[..k]) && DigitsIn(58, Code(t[..k]))
    requires (forall i :: 0 <= i < zeroes ==> t[i] == '1') && (zeroes < |t| ==> t[zeroes] != '1')
    requires forall i :: k <= i < |t| ==> IsSpace(t[i])
    requires Value(58, Code(t[..k])) >= 0
    requires k > zeroes ==> |Digits(256, Value(58, Code(t[..k])))| + zeroes <= maxLen
    requires zeroes > 0 ==> zeroes <= maxLen
    ensures Decoded(s, maxLen) == Some(Zeroes(zeroes) + Digits(256, Value(58, Code(t[..k]))))
  {
    hide Value;
    forall i | 0 <= i < k ensures !IsSpace(t[i]) { LetterOf(t[..k][i]); }
    TrimRightAt(t, k);
    var code := Code(t[..k]);
    assert zeroes < k ==> code[zeroes] != 0 by { if zeroes < k && code[zeroes] == 0 { LetterOf(t[zeroes]); LetterOf('1'); } }
    assert Leading(code) == zeroes by { LeadingAtLeast(code, zeroes); }
    if k == zeroes { BodyStart(t, zeroes); }
  }

  // ----- With a checksum -----

  /** The first four bytes of the double hash of a byte string. */
  type Checksum = seq<int> -> seq<int>

  const INT_MAX := 0x7fff_ffff

  ghost predicate FourBytes(sum: Checksum) {
    forall x :: |sum(x)| == 4 && DigitsIn(256, sum(x))
  }

  function EncodedCheck(sum: Checksum, bytes: seq<int>): string
    requires DigitsIn(256, bytes + sum(bytes))
  {
    Encoded(bytes + sum(bytes))
  }

  function DecodedCheck(sum: Checksum, s: string, maxLen: int): Option<seq<int>> {
    var r := Decoded(s, if maxLen > INT_MAX - 4 then INT_MAX else maxLen + 4);
    if r.None? || |r.value| < 4 then None
    else
      var n := |r.value| - 4;
      if sum(r.value[..n]) != r.value[n..] then None else Some(r.value[..n])
  }

  method EncodeCheck(sum: Checksum, input: seq<int>) returns (str: string)
    requires DigitsIn(256, input + sum(input))
    ensures str == EncodedCheck(sum, input)
  {
    str := Encode(input + sum(input));
  }

  method DecodeCheck(sum: Checksum, str: string, maxLen: int) returns (r: Option<seq<int>>)
    ensures r == DecodedCheck(sum, str, maxLen)
  {
    var vch := Decode(str, if maxLen > INT_MAX - 4 then INT_MAX else maxLen + 4);
    if vch.None? || |vch.value| < 4 { return None; }
    var n := |vch.value| - 4;
    if sum(vch.value[..n]) != vch.value[n..] { return None; }
    r := Some(vch.value[..n]);
  }

  lemma CheckRoundTrip(sum: Checksum, bytes: seq<int>, maxLen: int)
    requires FourBytes(sum) && DigitsIn(256, bytes) && |bytes| <= maxLen && |bytes| + 4 <= INT_MAX
    ensures DigitsIn(256, bytes + sum(bytes))
    ensures DecodedCheck(sum, EncodedCheck(sum, bytes), maxLen) == Some(bytes)
  {
    hide Encoded, Decoded;
    var all := bytes + sum(bytes);
    DecodeEncode(all, if maxLen > INT_MAX - 4 then INT_MAX else maxLen + 4);
    assert all[..|bytes|] == bytes && all[|bytes|..] == sum(bytes);
  }

  /** Every accepted text is the encoding, up to surrounding spaces, of the payload it yields. */
  lemma CheckAccepts(sum: Checksum, s: string, maxLen: int)
    requires FourBytes(sum) && DecodedCheck(sum, s, maxLen).Some?
    ensures var x := DecodedCheck(sum, s, maxLen).value;
      && DigitsIn(256, x + sum(x)) && EncodedCheck(sum, x) == Trim(s)
      && |x| <= maxLen && |x| <= INT_MAX - 4
  {
    hide Encoded, Decoded;
    var limit := if maxLen > INT_MAX - 4 then INT_MAX else maxLen + 4;
    var all := Decoded(s, limit).value;
    EncodeDecode(s, limit);
    DecodedIff(s, limit, all);
    assert all == all[..|all| - 4] + all[|all| - 4..];
  }
}

/** Numbers in text: decimal numerals as strconv prints and parses them, and the
    hexadecimal byte lists of core/util/bytesref/bytesref.go. */
module Numerals {
  import opened Arithmetic
  import opened Bytes
  import opened Powers

  function Digit(d: nat): char
    requires d < 16
  {
    if d < 10 then '0' + d as char else 'a' + (d - 10) as char
  }

  function DigitValue(c: char, base: nat): Option<nat> {
    var d: int :=
      if '0' <= c <= '9' then c as int - '0' as int
      else if 'a' <= c <= 'f' then c as int - 'a' as int + 10
      else if 'A' <= c <= 'F' then c as int - 'A' as int + 10
      else 16;
    if d < base && d < 16 then Some(d) else None
  }

  lemma DigitValueOfDigit(d: nat, base: nat)
    requires d < base <= 16
    ensures DigitValue(Digit(d), base) == Some(d)
  {
  }

  function Digits(n: nat, base: nat): (s: string)
    requires 2 <= base <= 16
    ensures s != []
    decreases n
  {
    if n < base then [Digit(n)] else Digits(n / base, base) + [Digit(n % base)]
  }

  function DigitsValue(s: string, base: nat): Option<nat> {
    if s == [] then Some(0)
    else
      match (DigitsValue(s[..|s| - 1], base), DigitValue(s[|s| - 1], base))
      case (Some(hi), Some(lo)) => Some(hi * base + lo)
      case _ => None
  }

  lemma {:induction false} DigitsRoundTrip(n: nat, base: nat)
    requires 2 <= base <= 16
    ensures DigitsValue(Digits(n, base), base) == Some(n)
    decreases n
  {
    DivMod(n, base);
    if n < base {
      DigitValueOfDigit(n, base);
      DigitsOne(Digit(n), base);
    } else {
      DigitsRoundTrip(n / base, base);
      DigitValueOfDigit(n % base, base);
      DigitsMore(Digits(n / base, base), Digit(n % base), base);
    }
  }

  lemma DigitsOne(c: char, base: nat)
    ensures DigitsValue([c], base) == DigitValue(c, base)
  {
    assert [c][..0] == [];
  }

  lemma DigitsMore(s: string, c: char, base: nat)
    requires DigitsValue(s, base).Some? && DigitValue(c, base).Some?
    ensures DigitsValue(s + [c], base) ==
            Some(DigitsValue(s, base).value * base + DigitValue(c, base).value)
  {
    assert (s + [c])[..|s + [c]| - 1] == s;
  }

  lemma {:induction false} AllDigits(n: nat, base: nat, i: nat)
    requires 2 <= base <= 16 && i < |Digits(n, base)|
    ensures DigitValue(Digits(n, base)[i], base).Some?
    decreases n
  {
    DivMod(n, base);
    DigitValueOfDigit(n % base, base);
    if n >= base && i < |Digits(n / base, base)| {
      AllDigits(n / base, base, i);
    }
  }

  lemma FirstDigit(n: nat, base: nat)
    requires 2 <= base <= 16
    ensures Digits(n, base) != [] && DigitValue(Digits(n, base)[0], base).Some?
  {
    AllDigits(n, base, 0);
  }

  lemma {:induction false} NoLeadingZero(n: nat)
    ensures |Digits(n, 10)| == 1 || Digits(n, 10)[0] != '0'
    ensures n > 0 ==> Digits(n, 10)[0] != '0'
    decreases n
  {
    DivMod(n, 10);
    if n >= 10 {
      NoLeadingZero(n / 10);
    }
  }

  lemma {:induction false} Leading(s: string)
    requires s != [] && s[0] != '0' && DigitsValue(s, 10).Some?
    ensures DigitsValue(s, 10).value > 0
  {
    if |s| > 1 {
      Leading(s[..|s| - 1]);
    } else {
      assert s[..0] == [] && s == [s[0]];
      DigitsOne(s[0], 10);
    }
  }

  /** A number has one numeral without a leading zero, and that is printed. */
  lemma {:induction false} OnlyNumeral(s: string, n: nat)
    requires DigitsValue(s, 10) == Some(n) && s != [] && (|s| == 1 || s[0] != '0')
    ensures s == Digits(n, 10)
  {
    var init, last := s[..|s| - 1], s[|s| - 1];
    assert s == init + [last];
    var hi, lo := DigitsValue(init, 10).value, DigitValue(last, 10).value;
    assert n == hi * 10 + lo && lo < 10 && Digit(lo) == last;
    if init == [] {
      assert hi == 0;
    } else {
      Leading(init);
      OnlyNumeral(init, hi);
      assert n / 10 == hi && n % 10 == lo;
    }
  }

  /** strconv.ParseInt: an optional sign, at least one digit, and a value that
      fits in `bits` bits. */
  function ParseInt(s: string, base: nat, bits: nat): Option<int>
    requires bits > 0
  {
    var signed := s != [] && (s[0] == '-' || s[0] == '+');
    var digits := if signed then s[1..] else s;
    if digits == [] then None
    else
      match DigitsValue(digits, base)
      case None => None
      case Some(m) =>
        var n: int := if signed && s[0] == '-' then 0 - m else m;
        if Fits(n, bits) then Some(n) else None
  }

  predicate Fits(n: int, bits: nat)
    requires bits > 0
  {
    0 - Pow(2, bits - 1) <= n < Pow(2, bits - 1)
  }

  function Itoa(n: int): string {
    if n < 0 then ['-'] + Digits(-n, 10) else Digits(n, 10)
  }

  function Atoi(s: string): Option<int> {
    ParseInt(s, 10, 64)
  }

  lemma ItoaRoundTrip(n: int, bits: nat)
    requires bits > 0 && Fits(n, bits)
    ensures ParseInt(Itoa(n), 10, bits) == Some(n)
  {
    var m: nat := if n < 0 then -n else n;
    DigitsRoundTrip(m, 10);
    var digits := Digits(m, 10);
    FirstDigit(m, 10);
    if n < 0 {
      assert Itoa(n)[1..] == digits;
    }
  }

  /** fmt's %0<width>d: leading zeros up to the given width. */
  function Zeros(k: nat): string {
    seq(k, _ => '0')
  }

  function Padded(n: nat, width: nat): string {
    var s := Digits(n, 10);
    if |s| < width then Zeros(width - |s|) + s else s
  }

  lemma {:induction false} LeadingZeros(k: nat, s: string)
    requires DigitsValue(s, 10).Some?
    ensures DigitsValue(Zeros(k) + s, 10) == DigitsValue(s, 10)
    decreases |s|, k
  {
    var t := Zeros(k) + s;
    if s == [] {
      if k > 0 {
        LeadingZeros(k - 1, s);
        assert t[..|t| - 1] == Zeros(k - 1) + s;
      }
    } else {
      LeadingZeros(k, s[..|s| - 1]);
      assert t[..|t| - 1] == Zeros(k) + s[..|s| - 1];
    }
  }

  lemma PaddedRoundTrip(n: nat, width: nat)
    requires Fits(n, 64)
    ensures Atoi(Padded(n, width)) == Some(n)
  {
    DigitsRoundTrip(n, 10);
    var s := Digits(n, 10);
    FirstDigit(n, 10);
    if |s| < width {
      LeadingZeros(width - |s|, s);
      assert Padded(n, width)[0] == '0';
    }
  }

  lemma {:induction false} DigitsLength(n: nat, width: nat)
    requires 0 < width && n < Pow(10, width)
    ensures |Digits(n, 10)| <= width
    decreases n
  {
    if n >= 10 {
      DigitsLength(n / 10, width - 1);
    }
  }

  /** The fixed-width field has its width for every 63-bit offset. */
  lemma PaddedWidth(n: nat)
    requires Fits(n, 64)
    ensures |Padded(n, 19)| == 19
  {
    LargePowers();
    DigitsLength(n, 19);
  }

  // The hexadecimal lists: [0x0 0x1f 0xff]

  function Hex(b: Byte): string {
    "0x" + Digits(b, 16)
  }

  function Join(parts: seq<string>): string {
    if parts == [] then []
    else if |parts| == 1 then parts[0]
    else parts[0] + [' '] + Join(parts[1..])
  }

  function HexParts(bs: seq<Byte>): seq<string> {
    seq(|bs|, i requires 0 <= i < |bs| => Hex(bs[i]))
  }

  function BytesToString(bs: seq<Byte>): string {
    ['['] + Join(HexParts(bs)) + [']']
  }

  function Split(s: string): (r: seq<string>)
    ensures r != []
  {
    if s == [] then [[]]
    else
      var rest := Split(s[1..]);
      if s[0] == ' ' then [[]] + rest else [[s[0]] + rest[0]] + rest[1..]
  }

  function DropHexMarks(s: string): string {
    if |s| < 2 then s
    else if s[0] == '0' && s[1] == 'x' then DropHexMarks(s[2..])
    else [s[0]] + DropHexMarks(s[1..])
  }

  function ParseHexParts(parts: seq<string>): Option<seq<Byte>> {
    if parts == [] then Some([])
    else
      match (ParseInt(DropHexMarks(parts[0]), 16, 16), ParseHexParts(parts[1..]))
      case (Some(n), Some(rest)) => Some([n % 256] + rest)
      case _ => None
  }

  function StringToBytes(s: string): Option<seq<Byte>> {
    if |s| < 2 || s[0] != '[' || s[|s| - 1] != ']' then None
    else ParseHexParts(Split(s[1..|s| - 1]))
  }

  lemma {:induction false} SplitWord(w: string, rest: string)
    requires ' ' !in w
    ensures Split(w) == [w]
    ensures Split(w + [' '] + rest) == [w] + Split(rest)
  {
    if w == [] {
      assert w + [' '] + rest == [' '] + rest;
      assert ([' '] + rest)[1..] == rest;
    } else {
      SplitWord(w[1..], rest);
      assert (w + [' '] + rest)[1..] == w[1..] + [' '] + rest;
      assert w == [w[0]] + w[1..];
    }
  }

  lemma {:induction false} SplitJoin(parts: seq<string>)
    requires parts != [] && forall p <- parts :: ' ' !in p
    ensures Split(Join(parts)) == parts
  {
    if |parts| == 1 {
      SplitWord(parts[0], []);
    } else {
      SplitJoin(parts[1..]);
      SplitWord(parts[0], Join(parts[1..]));
    }
  }

  lemma HexShape(b: Byte)
    ensures ' ' !in Hex(b)
    ensures ParseInt(DropHexMarks(Hex(b)), 16, 16) == Some(b)
  {
    DigitsRoundTrip(b, 16);
    var s := Digits(b, 16);
    assert Hex(b)[2..] == s;
    assert |s| <= 2;
    AllDigits(b, 16, 0);
    if |s| == 2 {
      assert s[1..] == [s[1]];
      AllDigits(b, 16, 1);
      assert DropHexMarks(s) == [s[0]] + s[1..];
    }
    assert DropHexMarks(s) == s;
    assert Fits(b, 16) by {
      PowAdd(2, 4, 4);
      PowAdd(2, 8, 7);
    }
  }

  lemma ParseHexNext(parts: seq<string>, b: Byte, rest: seq<Byte>)
    requires parts != [] && ParseInt(DropHexMarks(parts[0]), 16, 16) == Some(b)
             && ParseHexParts(parts[1..]) == Some(rest)
    ensures ParseHexParts(parts) == Some([b] + rest)
  {
    hide ParseInt, DropHexMarks;
  }

  lemma {:induction false} ParseHexPartsOfBytes(bs: seq<Byte>)
    ensures ParseHexParts(HexParts(bs)) == Some(bs)
  {
    if bs != [] {
      var parts := HexParts(bs);
      assert parts != [] && parts[0] == Hex(bs[0]) && parts[1..] == HexParts(bs[1..]);
      hide ParseInt, DropHexMarks, HexParts, Hex, ParseHexParts;
      HexShape(bs[0]);
      ParseHexPartsOfBytes(bs[1..]);
      ParseHexNext(parts, bs[0], bs[1..]);
      assert bs == [bs[0]] + bs[1..];
    }
  }

  /** A printed byte list parses back exactly when it is not empty: the parser
      sees one empty word in `[]` and rejects it. */
  lemma HexRoundTrip(bs: seq<Byte>)
    ensures StringToBytes(BytesToString(bs)) == if bs == [] then None else Some(bs)
  {
    var s, parts := BytesToString(bs), HexParts(bs);
    assert s[1..|s| - 1] == Join(parts);
    if bs == [] {
      assert [""][0] == "" && ParseInt(DropHexMarks(""), 16, 16) == None;
    } else {
      forall p | p in parts ensures ' ' !in p {
        var i :| 0 <= i < |parts| && parts[i] == p;
        HexShape(bs[i]);
      }
      SplitJoin(parts);
      ParseHexPartsOfBytes(bs);
    }
  }
}

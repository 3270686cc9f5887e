/** MAC addresses: the parser and the printer of `protocol/src/lib.rs`. */
module MacAddress {
  import opened Wrappers

  type byte = x: int | 0 <= x < 256

  type MacAddr = s: seq<byte> | |s| == 6 witness [0, 0, 0, 0, 0, 0]

  // ---------------------------------------------------------------- octets

  datatype IntErrorKind = Empty | InvalidDigit | PosOverflow

  predicate IsHex(c: char) {
    '0' <= c <= '9' || 'A' <= c <= 'F' || 'a' <= c <= 'f'
  }

  function DigitValue(c: char): (d: nat)
    requires IsHex(c)
    ensures d < 16
  {
    if c <= '9' then c as int - '0' as int
    else if c <= 'F' then c as int - 'A' as int + 10
    else c as int - 'a' as int + 10
  }

  /** The digits that are left once one leading plus sign has been dropped. */
  function Digits(s: string): string {
    if |s| > 0 && s[0] == '+' then s[1..] else s
  }

  /** `u8::from_str_radix(s, 16)`, with its checked 8-bit accumulator. */
  function ParseOctet(s: string): Result<byte, IntErrorKind> {
    if s == "" then Failure(Empty)
    else if s == "+" || s == "-" then Failure(InvalidDigit)
    else Accumulate(Digits(s), 0)
  }

  function Accumulate(digits: string, acc: byte): Result<byte, IntErrorKind> {
    if digits == "" then Success(acc)
    else if !IsHex(digits[0]) then Failure(InvalidDigit)
    else if acc * 16 >= 256 then Failure(PosOverflow)
    else if acc * 16 + DigitValue(digits[0]) >= 256 then Failure(PosOverflow)
    else Accumulate(digits[1..], acc * 16 + DigitValue(digits[0]))
  }

  predicate AllHex(s: string) {
    forall i | 0 <= i < |s| :: IsHex(s[i])
  }

  /** Reference meaning of a digit string: its unbounded base-16 value. */
  function HexValue(s: string): nat
    requires AllHex(s)
  {
    if s == "" then 0 else 16 * HexValue(s[..|s| - 1]) + DigitValue(s[|s| - 1])
  }

  /** The accumulator accepts exactly the digit strings whose value, on top of `high`, fits. */
  lemma {:induction false} AccumulateMeaning(high: string, low: string, acc: byte)
    requires AllHex(high) && HexValue(high) == acc
    ensures Accumulate(low, acc).Success? <==> AllHex(low) && HexValue(high + low) < 256
    ensures Accumulate(low, acc).Success? ==> Accumulate(low, acc).value == HexValue(high + low)
    decreases |low|
  {
    if low == "" {
      assert high + low == high;
    } else if IsHex(low[0]) {
      var higher := high + [low[0]];
      HexValueSnoc(high, low[0]);
      AllHexTail(low);
      assert higher + low[1..] == high + low;
      if AllHex(low) { HexValueGrows(higher, low[1..]); }
      if acc < 16 { AccumulateMeaning(higher, low[1..], acc * 16 + DigitValue(low[0])); }
    }
  }

  lemma AllHexTail(s: string)
    requires s != "" && IsHex(s[0])
    ensures AllHex(s) <==> AllHex(s[1..])
  {
    assert forall i | 0 <= i < |s[1..]| :: s[1..][i] == s[i + 1];
  }

  lemma HexValueSnoc(high: string, c: char)
    requires AllHex(high) && IsHex(c)
    ensures AllHex(high + [c]) && HexValue(high + [c]) == 16 * HexValue(high) + DigitValue(c)
  {
    assert (high + [c])[..|high + [c]| - 1] == high;
  }

  lemma {:induction false} HexValueGrows(high: string, low: string)
    requires AllHex(high) && AllHex(low)
    ensures HexValue(high + low) >= HexValue(high)
    decreases |low|
  {
    if low == "" {
      assert high + low == high;
    } else {
      assert (high + low)[..|high + low| - 1] == high + low[..|low| - 1];
      HexValueGrows(high, low[..|low| - 1]);
    }
  }

  /** `from_str_radix` accepts a field if and only if it is an optional plus sign followed by at
      least one hexadecimal digit whose value is below 256, and then returns that value. */
  lemma ParseOctetMeaning(s: string)
    ensures ParseOctet(s).Success? <==>
            Digits(s) != "" && AllHex(Digits(s)) && HexValue(Digits(s)) < 256
    ensures ParseOctet(s).Success? ==> ParseOctet(s).value == HexValue(Digits(s))
    ensures s == "" <==> ParseOctet(s) == Failure(Empty)
  {
    AccumulateMeaning("", Digits(s), 0);
    assert "" + Digits(s) == Digits(s);
    AccumulateNeverEmpty(Digits(s), 0);
    if s == "-" { assert !IsHex(Digits(s)[0]); }
  }

  lemma {:induction false} AccumulateNeverEmpty(s: string, acc: byte)
    ensures Accumulate(s, acc) != Failure(Empty)
    decreases |s|
  {
    if s != "" && IsHex(s[0]) && acc < 16 {
      AccumulateNeverEmpty(s[1..], acc * 16 + DigitValue(s[0]));
    }
  }

  const UPPER := "0123456789ABCDEF"
  const LOWER := "0123456789abcdef"

  /** The hexadecimal digits are those of these two lists, and each counts for its place in its list:
      lower case and upper case are the same. Printing uses the upper-case list. */
  lemma DigitsOfBothCases(d: nat)
    requires d < 16
    ensures IsHex(UPPER[d]) && IsHex(LOWER[d]) && DigitValue(UPPER[d]) == DigitValue(LOWER[d]) == d
    ensures HexDigit(d) == UPPER[d]
  {
  }

  lemma NoOtherDigits(c: char)
    ensures IsHex(c) <==> c in UPPER || c in LOWER
  {
    if IsHex(c) {
      var d := DigitValue(c);
      DigitsOfBothCases(d);
      assert c == UPPER[d] || c == LOWER[d];
    }
  }

  /** The digits overflow as soon as a prefix has a value that is too large. */
  ghost predicate Overflows(high: string, low: string)
    requires AllHex(high)
  {
    exists i: nat | i <= |low| && AllHex(high + low[..i]) :: HexValue(high + low[..i]) >= 256
  }

  lemma {:induction false} AccumulateOverflows(high: string, low: string, acc: byte)
    requires AllHex(high) && HexValue(high) == acc
    ensures Accumulate(low, acc) == Failure(PosOverflow) <==> Overflows(high, low)
    decreases |low|
  {
    if low == "" {
      assert high + "" == high;
    } else if IsHex(low[0]) {
      HexValueSnoc(high, low[0]);
      var higher := high + [low[0]];
      if HexValue(higher) < 256 {
        AccumulateOverflows(higher, low[1..], HexValue(higher));
        OverflowsLater(high, low);
      } else {
        assert low[..1] == [low[0]] && AllHex(high + low[..1]);
      }
    } else {
      forall i: nat | 0 < i <= |low| ensures !AllHex(high + low[..i]) { assert (high + low[..i])[|high|] == low[0]; }
      assert high + low[..0] == high;
    }
  }

  lemma OverflowsLater(high: string, low: string)
    requires AllHex(high) && HexValue(high) < 256 && low != "" && AllHex(high + [low[0]]) && HexValue(high + [low[0]]) < 256
    ensures Overflows(high, low) <==> Overflows(high + [low[0]], low[1..])
  {
    assert high + low[..0] == high;
    forall i: nat | 0 < i <= |low| ensures high + low[..i] == high + [low[0]] + low[1..][..i - 1] {
      assert low[..i] == [low[0]] + low[1..][..i - 1];
    }
    if i: nat :| i <= |low| && AllHex(high + low[..i]) && HexValue(high + low[..i]) >= 256 {
      assert high + low[..i] == high + [low[0]] + low[1..][..i - 1];
    }
    if i: nat :| i <= |low[1..]| && AllHex(high + [low[0]] + low[1..][..i]) && HexValue(high + [low[0]] + low[1..][..i]) >= 256 {
      assert high + low[..i + 1] == high + [low[0]] + low[1..][..i];
    }
  }

  /** A field that is refused is empty, or has digits whose value becomes too large, or else has
      something that is not a digit, or no digit at all. */
  lemma ParseOctetErrors(s: string)
    requires ParseOctet(s).Failure?
    ensures ParseOctet(s) == Failure(if s == "" then Empty else if Overflows("", Digits(s)) then PosOverflow else InvalidDigit)
  {
    AccumulateOverflows("", Digits(s), 0);
    AccumulateNeverEmpty(Digits(s), 0);
    if s == "+" || s == "-" {
      NothingOverflows(Digits(s));
    } else if s != "" {
      assert ParseOctet(s) == Accumulate(Digits(s), 0);
      var kind := ParseOctet(s).error;
      assert kind == PosOverflow <==> Overflows("", Digits(s));
    }
  }

  lemma NothingOverflows(d: string)
    requires d == "" || d == "-"
    ensures !Overflows("", d)
  {
    forall i: nat | i <= |d| && AllHex("" + d[..i]) ensures HexValue("" + d[..i]) < 256 {
      if i == 1 { assert ("" + d[..i])[0] == '-'; }
    }
  }

  // ---------------------------------------------------------------- splitting

  /** `value.split(':')`: always at least one field. */
  function Split(s: string): (fields: seq<string>)
    ensures |fields| >= 1
  {
    if s == "" then [""]
    else
      var rest := Split(s[1..]);
      if s[0] == ':' then [""] + rest else [[s[0]] + rest[0]] + rest[1..]
  }

  function Join(fields: seq<string>): string
    requires |fields| >= 1
  {
    if |fields| == 1 then fields[0] else fields[0] + ":" + Join(fields[1..])
  }

  ghost predicate NoColons(fields: seq<string>) {
    forall i | 0 <= i < |fields| :: ':' !in fields[i]
  }

  /** Splitting is inverse to joining, and its fields are the colon-free ones. */
  lemma {:induction false} JoinSplit(s: string)
    ensures Join(Split(s)) == s && NoColons(Split(s))
  {
    if s != "" {
      JoinSplit(s[1..]);
      var rest := Split(s[1..]);
      if s[0] == ':' {
        assert Split(s)[1..] == rest;
        assert s == [s[0]] + s[1..];
      } else {
        assert Split(s)[1..] == rest[1..];
        assert s == [s[0]] + s[1..];
        if |rest| > 1 {
          assert Join(Split(s)) == [s[0]] + rest[0] + ":" + Join(rest[1..]);
          assert Join(rest) == rest[0] + ":" + Join(rest[1..]);
        }
      }
    }
  }

  lemma {:induction false} SplitJoin(fields: seq<string>)
    requires |fields| >= 1 && NoColons(fields)
    ensures Split(Join(fields)) == fields
    decreases |fields|, |fields[0]|
  {
    var s := Join(fields);
    if fields[0] == "" {
      if |fields| > 1 {
        SplitJoin(fields[1..]);
        assert s == ":" + Join(fields[1..]) && s[1..] == Join(fields[1..]);
      }
    } else {
      var shorter := [fields[0][1..]] + fields[1..];
      assert shorter[1..] == fields[1..];
      assert s[0] == fields[0][0] && s[0] in fields[0];
      assert s[1..] == Join(shorter);
      SplitJoin(shorter);
      assert fields[0] == [s[0]] + shorter[0];
    }
  }

  // ---------------------------------------------------------------- parsing

  datatype ParseError =
    | OctetError(index: nat, source: IntErrorKind)
    | Short(count: nat)
    | Long

  ghost predicate OctetsParse(fields: seq<string>, n: nat) {
    n <= |fields| && forall i | 0 <= i < n :: ParseOctet(fields[i]).Success?
  }

  /** What the result of parsing means for a list of fields, one clause per outcome. */
  ghost predicate Parses(fields: seq<string>, r: Result<MacAddr, ParseError>) {
    match r
    case Success(mac) =>
      |fields| == 6 && forall i | 0 <= i < 6 :: ParseOctet(fields[i]) == Success(mac[i])
    case Failure(OctetError(i, kind)) =>
      i < 6 && i < |fields| && OctetsParse(fields, i) && ParseOctet(fields[i]) == Failure(kind)
    case Failure(Short(n)) =>
      n == |fields| < 6 && OctetsParse(fields, n)
    case Failure(Long) =>
      |fields| > 6 && OctetsParse(fields, 6)
  }

  /** `MacAddr::from_str`. */
  method FromStr(value: string) returns (r: Result<MacAddr, ParseError>)
    ensures Parses(Split(value), r)
  {
    var bytes := new byte[6];
    var split := Split(value);
    var i := 0;
    while i < 6
      invariant 0 <= i <= 6
      invariant |Split(value)| >= i && split == Split(value)[i..]
      invariant forall k | 0 <= k < i :: ParseOctet(Split(value)[k]) == Success(bytes[k])
    {
      if split == [] { return Failure(Short(i)); }
      match ParseOctet(split[0]) {
        case Success(b) => bytes[i] := b;
        case Failure(e) => return Failure(OctetError(i, e));
      }
      split := split[1..];
      i := i + 1;
    }
    if split != [] { return Failure(Long); }
    return Success(bytes[..]);
  }

  /** The clauses of `Parses` are exhaustive and exclusive: every list of fields has exactly one
      result. So `FromStr` is a function of its argument. */
  lemma ParseIsFunction(fields: seq<string>, r: Result<MacAddr, ParseError>, r': Result<MacAddr, ParseError>)
    requires Parses(fields, r) && Parses(fields, r')
    ensures r == r'
  {
    if r.Success? && r'.Success? {
      assert forall i | 0 <= i < 6 :: ParseOctet(fields[i]) == Success(r.value[i]);
      assert r.value == r'.value;
    }
  }

  // ---------------------------------------------------------------- printing

  function HexDigit(d: nat): char
    requires d < 16
  {
    if d < 10 then ('0' as int + d) as char else ('A' as int + (d - 10)) as char
  }

  /** `{byte:0>2X}`. */
  function Hex2(b: byte): string {
    [HexDigit(b / 16), HexDigit(b % 16)]
  }

  function HexFields(bytes: seq<byte>): (fields: seq<string>)
    ensures |fields| == |bytes|
    ensures forall i | 0 <= i < |bytes| :: fields[i] == Hex2(bytes[i])
  {
    if bytes == [] then [] else [Hex2(bytes[0])] + HexFields(bytes[1..])
  }

  /** `Display for MacAddr`. */
  method Format(mac: MacAddr) returns (s: string)
    ensures s == Join(HexFields(mac))
  {
    s := "";
    ghost var fields := HexFields(mac);
    assert fields[0..] == fields;
    for i := 0 to 5
      invariant s + Join(fields[i..]) == Join(fields)
    {
      JoinStep(fields[i..], s);
      assert fields[i..][1..] == fields[i + 1..];
      s := s + Hex2(mac[i]) + ":";
    }
    assert fields[5..] == [Hex2(mac[5])];
    s := s + Hex2(mac[5]);
  }

  lemma JoinStep(fields: seq<string>, before: string)
    requires |fields| > 1
    ensures before + Join(fields) == before + fields[0] + ":" + Join(fields[1..])
  {
  }

  lemma Hex2Parses(b: byte)
    ensures ':' !in Hex2(b) && TwoUpperHexDigits(Hex2(b)) && ParseOctet(Hex2(b)) == Success(b)
  {
    var hi, lo := HexDigit(b / 16), HexDigit(b % 16);
    assert IsHex(hi) && DigitValue(hi) == b / 16;
    assert IsHex(lo) && DigitValue(lo) == b % 16;
    assert Hex2(b)[1..] == [lo] && [lo][1..] == "";
    assert Accumulate("", b) == Success(b);
    assert Accumulate([lo], b / 16) == Success(b);
    assert Digits(Hex2(b)) == Hex2(b);
  }

  /** Parsing the printed form of an address returns that address, whichever result the parser
      may give. */
  lemma RoundTrip(mac: MacAddr, r: Result<MacAddr, ParseError>)
    requires Parses(Split(Join(HexFields(mac))), r)
    ensures r == Success(mac)
  {
    PrintedFields(mac);
    ParseIsFunction(HexFields(mac), r, Success(mac));
  }

  /** Two addresses with the same printed form are equal. */
  lemma PrintingIsInjective(a: MacAddr, b: MacAddr)
    requires Join(HexFields(a)) == Join(HexFields(b))
    ensures a == b
  {
    PrintedFields(a);
    PrintedFields(b);
    ParseIsFunction(HexFields(a), Success(a), Success(b));
  }

  ghost predicate TwoUpperHexDigits(f: string) {
    |f| == 2 && IsUpperHex(f[0]) && IsUpperHex(f[1])
  }

  predicate IsUpperHex(c: char) {
    '0' <= c <= '9' || 'A' <= c <= 'F'
  }

  /** Printing what was parsed is a normal form: it gives the input back if and only if every
      field of the input is two upper-case hexadecimal digits. */
  lemma NormalForm(s: string, mac: MacAddr)
    requires Parses(Split(s), Success(mac))
    ensures Join(HexFields(mac)) == s <==>
            forall i | 0 <= i < 6 :: TwoUpperHexDigits(Split(s)[i])
  {
    JoinSplit(s);
    PrintedFields(mac);
    var fields := Split(s);
    if forall i | 0 <= i < 6 :: TwoUpperHexDigits(fields[i]) {
      forall i | 0 <= i < 6 ensures fields[i] == Hex2(mac[i]) {
        UpperHexFieldIsPrinted(fields[i], mac[i]);
      }
      assert fields == HexFields(mac);
    }
  }

  lemma PrintedFields(mac: MacAddr)
    ensures Split(Join(HexFields(mac))) == HexFields(mac)
    ensures Parses(HexFields(mac), Success(mac))
    ensures forall i | 0 <= i < 6 :: TwoUpperHexDigits(HexFields(mac)[i])
  {
    forall i | 0 <= i < 6
      ensures ':' !in HexFields(mac)[i] && ParseOctet(HexFields(mac)[i]) == Success(mac[i])
      ensures TwoUpperHexDigits(HexFields(mac)[i])
    {
      Hex2Parses(mac[i]);
    }
    SplitJoin(HexFields(mac));
  }

  lemma UpperHexFieldIsPrinted(f: string, b: byte)
    requires TwoUpperHexDigits(f) && ParseOctet(f) == Success(b)
    ensures f == Hex2(b)
  {
    UpperHexDigit(f[0]);
    UpperHexDigit(f[1]);
    TwoDigitValue(f);
    ParseOctetMeaning(f);
    assert Digits(f) == f;
  }

  lemma UpperHexDigit(c: char)
    requires IsUpperHex(c)
    ensures HexDigit(DigitValue(c)) == c
  {
  }

  lemma TwoDigitValue(f: string)
    requires AllHex(f) && |f| == 2
    ensures HexValue(f) == 16 * DigitValue(f[0]) + DigitValue(f[1])
  {
    var high := f[..1];
    assert high == [f[0]] && high[..0] == "";
    assert HexValue(high) == 16 * HexValue(high[..0]) + DigitValue(f[0]);
  }
}

/** Printing and parsing the keys of Avail cells: "block:row:column" in decimal. */
module AvailKeys {
  import opened Options

  const KEY_DELIMITER: char := ':'
  const COORDINATES_PER_KEY := 3
  const TWO_63 := 0x8000_0000_0000_0000
  const TWO_64 := 0x1_0000_0000_0000_0000

  /** Coordinates are unsigned 64-bit integers in the program. */
  datatype AvailKey = AvailKey(block: nat, row: nat, column: nat) {
    predicate Small() {
      block < TWO_63 && row < TWO_63 && column < TWO_63
    }

    function Print(): string {
      Decimal(block) + [KEY_DELIMITER] + Decimal(row) + [KEY_DELIMITER] + Decimal(column)
    }
  }

  // ----- Decimal numbers -----

  function Digit(d: nat): (c: char)
    requires d < 10
    ensures IsDigit(c)
  {
    '0' + d as char
  }

  predicate IsDigit(c: char) {
    '0' <= c <= '9'
  }

  predicate AllDigits(s: string) {
    forall i :: 0 <= i < |s| ==> IsDigit(s[i])
  }

  function Decimal(n: nat): string {
    if n < 10 then [Digit(n)] else Decimal(n / 10) + [Digit(n % 10)]
  }

  function Value(s: string): nat
    requires AllDigits(s)
  {
    if s == [] then 0
    else Value(s[..|s| - 1]) * 10 + (s[|s| - 1] - '0') as nat
  }

  /** A number as it would be printed: no sign and no leading zero. */
  predicate Canonical(s: string) {
    && AllDigits(s) && s != []
    && (s[0] == '0' ==> |s| == 1)
  }

  lemma {:induction false} ValueOfDecimal(n: nat)
    ensures Canonical(Decimal(n)) && Value(Decimal(n)) == n
    ensures n > 0 ==> Decimal(n)[0] != '0'
  {
    if n >= 10 {
      ValueOfDecimal(n / 10);
      var s := Decimal(n);
      assert s[..|s| - 1] == Decimal(n / 10);
      assert s[0] == Decimal(n / 10)[0];
    } else {
      assert [Digit(n)][..0] == [];
    }
  }

  lemma {:induction false} DecimalOfValue(s: string)
    requires Canonical(s)
    ensures Decimal(Value(s)) == s
    ensures |s| > 1 ==> Value(s) >= 10
    ensures s[0] != '0' ==> Value(s) > 0
  {
    var n := |s| - 1;
    var d := (s[n] - '0') as nat;
    assert s == s[..n] + [Digit(d)];
    if n > 0 {
      assert s[..n][0] == s[0];
      DecimalOfValue(s[..n]);
    } else {
      assert Value(s[..0]) == 0;
    }
  }

  // ----- Parsing one coordinate -----

  /** strconv.Atoi: an optional sign, at least one digit, and a value that fits 64 bits. */
  function Atoi(s: string): Option<int> {
    var negative := s != [] && s[0] == '-';
    var digits := if s != [] && (s[0] == '-' || s[0] == '+') then s[1..] else s;
    if digits == [] || !AllDigits(digits) then None
    else
      var v: int := Value(digits);
      if negative then (if v <= TWO_63 then Some(-v) else None)
      else (if v < TWO_63 then Some(v) else None)
  }

  /** A negative number wraps around when it is converted to an unsigned coordinate. */
  function StrToUint64(s: string): Option<nat> {
    match Atoi(s)
    case None => None
    case Some(v) => Some(v % TWO_64)
  }

  lemma AtoiOfDecimal(n: nat)
    ensures Atoi(Decimal(n)) == if n < TWO_63 then Some(n) else None
  {
    ValueOfDecimal(n);
    assert IsDigit(Decimal(n)[0]);
  }

  lemma Unsigned(s: string, v: int)
    requires Atoi(s) == Some(v)
    ensures StrToUint64(s).Some?
    ensures 0 <= v < TWO_64 ==> StrToUint64(s) == Some(v)
  {
  }

  /** Leading zeros do not count. */
  lemma {:induction false} PaddedValue(s: string)
    requires AllDigits(s)
    ensures AllDigits("0" + s) && Value("0" + s) == Value(s)
  {
    if s == [] {
      assert Value("0"[..0]) == 0;
    } else {
      var n := |s| - 1;
      assert ("0" + s)[..|s|] == "0" + s[..n];
      PaddedValue(s[..n]);
    }
  }

  /** A coordinate of at least one digit is read exactly if its value fits a signed 64-bit integer. */
  lemma ReadDigits(digits: string)
    requires AllDigits(digits) && digits != []
    ensures StrToUint64(digits) == if Value(digits) < TWO_63 then Some(Value(digits)) else None
  {
    assert IsDigit(digits[0]);
  }

  /** So is one with a plus sign. */
  lemma ReadPlus(digits: string)
    requires AllDigits(digits) && digits != []
    ensures StrToUint64(['+'] + digits) == if Value(digits) < TWO_63 then Some(Value(digits)) else None
  {
    assert (['+'] + digits)[1..] == digits;
  }

  lemma CountsBack(v: int)
    requires 0 < v <= TWO_63
    ensures (-v) % TWO_64 == 0x1_0000_0000_0000_0000 - v
  {
  }

  /** One with a minus sign may go down to the least such integer, and counts back from 2^64. */
  lemma ReadMinus(digits: string)
    requires AllDigits(digits) && digits != []
    ensures Value(digits) == 0 ==> StrToUint64(['-'] + digits) == Some(0)
    ensures 0 < Value(digits) <= TWO_63
            ==> StrToUint64(['-'] + digits) == Some(0x1_0000_0000_0000_0000 - Value(digits))
    ensures Value(digits) > TWO_63 ==> StrToUint64(['-'] + digits) == None
  {
    assert (['-'] + digits)[1..] == digits;
    if 0 < Value(digits) <= TWO_63 {
      CountsBack(Value(digits));
    }
  }

  /** Nothing else is read. */
  lemma ReadOnlyDigits(s: string) returns (sign: string, digits: string)
    requires StrToUint64(s).Some?
    ensures s == sign + digits && (sign == "" || sign == "+" || sign == "-")
    ensures AllDigits(digits) && digits != []
  {
    sign := if s[0] == '-' || s[0] == '+' then [s[0]] else "";
    digits := s[|sign|..];
  }

  /** A printed coordinate parses back if and only if it is below 2^63. */
  lemma ParsePrinted(n: nat)
    ensures StrToUint64(Decimal(n)) == if n < TWO_63 then Some(n) else None
  {
    AtoiOfDecimal(n);
    if n < TWO_63 {
      Unsigned(Decimal(n), n);
    }
  }

  /** A parsed coordinate prints as it was written if and only if it was canonical. */
  lemma PrintParsed(s: string)
    requires StrToUint64(s).Some?
    ensures Decimal(StrToUint64(s).value) == s <==> Canonical(s)
  {
    if Canonical(s) {
      assert IsDigit(s[0]);
      DecimalOfValue(s);
    } else {
      ValueOfDecimal(StrToUint64(s).value);
    }
  }

  // ----- Splitting at the delimiter -----

  /** strings.Split for a delimiter of one character. */
  function Split(s: string, sep: char): (parts: seq<string>)
    ensures parts != []
  {
    if s == [] then [[]]
    else
      var rest := Split(s[1..], sep);
      if s[0] == sep then [[]] + rest else [[s[0]] + rest[0]] + rest[1..]
  }

  function Join(parts: seq<string>, sep: char): string
    requires parts != []
  {
    if |parts| == 1 then parts[0] else parts[0] + [sep] + Join(parts[1..], sep)
  }

  lemma {:induction false} SplitFirst(a: string, rest: string, sep: char)
    requires sep !in a
    ensures Split(a + [sep] + rest, sep) == [a] + Split(rest, sep)
  {
    var s := a + [sep] + rest;
    if a == [] {
      assert s[1..] == rest;
    } else {
      assert s[1..] == a[1..] + [sep] + rest;
      SplitFirst(a[1..], rest, sep);
      assert [a[0]] + a[1..] == a;
    }
  }

  lemma {:induction false} SplitLast(a: string, sep: char)
    requires sep !in a
    ensures Split(a, sep) == [a]
  {
    if a != [] {
      SplitLast(a[1..], sep);
      assert [a[0]] + a[1..] == a;
    }
  }

  lemma {:induction false} JoinOfSplit(s: string, sep: char)
    ensures Join(Split(s, sep), sep) == s
  {
    if s != [] {
      JoinOfSplit(s[1..], sep);
      var rest := Split(s[1..], sep);
      if s[0] == sep {
        assert Split(s, sep)[1..] == rest;
      } else {
        assert Split(s, sep)[1..] == rest[1..];
      }
    }
  }

  lemma DecimalHasNoDelimiter(n: nat)
    ensures KEY_DELIMITER !in Decimal(n)
  {
    ValueOfDecimal(n);
  }

  lemma SplitPrinted(k: AvailKey)
    ensures Split(k.Print(), KEY_DELIMITER) == [Decimal(k.block), Decimal(k.row), Decimal(k.column)]
  {
    var b, r, c := Decimal(k.block), Decimal(k.row), Decimal(k.column);
    DecimalHasNoDelimiter(k.block);
    DecimalHasNoDelimiter(k.row);
    DecimalHasNoDelimiter(k.column);
    assert k.Print() == b + [KEY_DELIMITER] + (r + [KEY_DELIMITER] + c);
    SplitFirst(b, r + [KEY_DELIMITER] + c, KEY_DELIMITER);
    SplitFirst(r, c, KEY_DELIMITER);
    SplitLast(c, KEY_DELIMITER);
  }

  lemma ColonsOfSum(a: string, b: string)
    ensures multiset(a + b)[':'] == multiset(a)[':'] + multiset(b)[':']
  {
  }

  /** A printed key is the three numbers with a colon between them, and has no other colon. */
  lemma PrintedForm(k: AvailKey)
    ensures k.Print() == Decimal(k.block) + ":" + Decimal(k.row) + ":" + Decimal(k.column)
    ensures multiset(k.Print())[':'] == 2
  {
    var b, r, c := Decimal(k.block), Decimal(k.row), Decimal(k.column);
    DecimalHasNoDelimiter(k.block);
    DecimalHasNoDelimiter(k.row);
    DecimalHasNoDelimiter(k.column);
    assert multiset(b)[':'] == multiset(r)[':'] == multiset(c)[':'] == 0;
    ColonsOfSum(b, ":");
    ColonsOfSum(b + ":", r);
    ColonsOfSum(b + ":" + r, ":");
    ColonsOfSum(b + ":" + r + ":", c);
  }

  // ----- Parsing keys -----

  function Parse(s: string): Option<AvailKey> {
    var parts := Split(s, KEY_DELIMITER);
    if |parts| != COORDINATES_PER_KEY then None
    else
      match (StrToUint64(parts[0]), StrToUint64(parts[1]), StrToUint64(parts[2]))
      case (Some(b), Some(r), Some(c)) => Some(AvailKey(b, r, c))
      case _ => None
  }

  /** getCoordinatesFromStr: the loop stops at the first coordinate that is not a number. */
  method GetCoordinatesFromStr(str: string) returns (block: nat, row: nat, column: nat, failed: bool)
    ensures Parse(str) == if failed then None else Some(AvailKey(block, row, column))
  {
    block, row, column := 0, 0, 0;
    var keyValues := Split(str, KEY_DELIMITER);
    if |keyValues| != COORDINATES_PER_KEY {
      return block, row, column, true;
    }
    for idx := 0 to |keyValues|
      invariant idx > 0 ==> StrToUint64(keyValues[0]) == Some(block)
      invariant idx > 1 ==> StrToUint64(keyValues[1]) == Some(row)
      invariant idx > 2 ==> StrToUint64(keyValues[2]) == Some(column)
    {
      var parsed := StrToUint64(keyValues[idx]);
      var value := if parsed.Some? then parsed.value else 0;
      match idx {
        case 0 => block := value;
        case 1 => row := value;
        case _ => column := value;
      }
      if parsed.None? {
        return block, row, column, true;
      }
    }
    return block, row, column, false;
  }

  method AvailKeyFromString(str: string) returns (key: Option<AvailKey>)
    ensures key == Parse(str)
  {
    var block, row, column, failed := GetCoordinatesFromStr(str);
    if failed {
      return None;
    }
    return Some(AvailKey(block, row, column));
  }

  /** A printed key parses back to itself exactly if no coordinate reaches 2^63; otherwise it is refused. */
  lemma RoundTrip(k: AvailKey)
    ensures Parse(k.Print()) == if k.Small() then Some(k) else None
  {
    SplitPrinted(k);
    ParsePrinted(k.block);
    ParsePrinted(k.row);
    ParsePrinted(k.column);
  }

  /** Different keys print differently, whatever their size. */
  lemma PrintInjective(k: AvailKey, l: AvailKey)
    requires k.Print() == l.Print()
    ensures k == l
  {
    SplitPrinted(k);
    SplitPrinted(l);
    assert [Decimal(k.block), Decimal(k.row), Decimal(k.column)]
        == [Decimal(l.block), Decimal(l.row), Decimal(l.column)];
    ValueOfDecimal(k.block);
    ValueOfDecimal(l.block);
    ValueOfDecimal(k.row);
    ValueOfDecimal(l.row);
    ValueOfDecimal(k.column);
    ValueOfDecimal(l.column);
  }

  /** Printing what was parsed gives the same text exactly if each coordinate was written canonically. */
  lemma PrintOfParse(s: string)
    requires Parse(s).Some?
    ensures var parts := Split(s, KEY_DELIMITER);
            && |parts| == 3
            && (Parse(s).value.Print() == s <==> Canonical(parts[0]) && Canonical(parts[1]) && Canonical(parts[2]))
  {
    var parts, k := Split(s, KEY_DELIMITER), Parse(s).value;
    PrintParsed(parts[0]);
    PrintParsed(parts[1]);
    PrintParsed(parts[2]);
    SplitPrinted(k);
    JoinOfSplit(s, KEY_DELIMITER);
    JoinOfSplit(k.Print(), KEY_DELIMITER);
    assert Split(k.Print(), KEY_DELIMITER) == parts <==> k.Print() == s;
  }
}

/**
 * Room names of the form "Room_<x>_<y>" and RoomManager.ParseRoomCoord, which
 * reads the grid coordinate back out of them with string.Split('_') and
 * int.Parse. Both library calls are modelled here: Split keeps empty parts,
 * and int.Parse accepts optional surrounding white space, one optional sign
 * and at least one decimal digit, and rejects values outside 32 bits.
 */
module RoomNames {

  datatype Option<T> = None | Some(value: T)

  /** Vector2Int: a grid coordinate. */
  datatype Coord = Coord(x: int, y: int)

  const INT32_MIN: int := -0x8000_0000
  const INT32_MAX: int := 0x7FFF_FFFF

  predicate IsInt32(n: int)
  {
    INT32_MIN <= n <= INT32_MAX
  }

  /** The separator ParseRoomCoord splits on. */
  const SEP: char := '_'

  // ---------------------------------------------------------------------
  // string.Split(char) and its inverse

  /** string.Split(sep): the maximal runs between separators, empty runs included. */
  function Split(s: string, sep: char): (parts: seq<string>)
    ensures |parts| >= 1
  {
    if s == [] then [""]
    else
      var rest := Split(s[1..], sep);
      if s[0] == sep then [""] + rest
      else [[s[0]] + rest[0]] + rest[1..]
  }

  /** string.Join(sep, parts). */
  function Join(parts: seq<string>, sep: char): string
    requires |parts| >= 1
  {
    if |parts| == 1 then parts[0] else parts[0] + [sep] + Join(parts[1..], sep)
  }

  /** No part of a split contains the separator. */
  lemma {:induction false} SplitPartsSeparatorFree(s: string, sep: char)
    ensures forall i | 0 <= i < |Split(s, sep)| :: sep !in Split(s, sep)[i]
  {
    if s != [] {
      SplitPartsSeparatorFree(s[1..], sep);
    }
  }

  /** Splitting around one separator splits each side independently. */
  lemma {:induction false} SplitAround(a: string, sep: char, b: string)
    ensures Split(a + [sep] + b, sep) == Split(a, sep) + Split(b, sep)
  {
    if a == [] {
      assert a + [sep] + b == [sep] + b;
      assert ([sep] + b)[1..] == b;
    } else {
      assert (a + [sep] + b)[1..] == a[1..] + [sep] + b;
      SplitAround(a[1..], sep, b);
    }
  }

  /** A string without the separator is a single part. */
  lemma {:induction false} SplitNoSeparator(s: string, sep: char)
    requires sep !in s
    ensures Split(s, sep) == [s]
  {
    if s != [] {
      SplitNoSeparator(s[1..], sep);
      assert [s[0]] + s[1..] == s;
    }
  }

  /** Joining then splitting gives back the parts, when no part holds the separator. */
  lemma {:induction false} SplitJoin(parts: seq<string>, sep: char)
    requires |parts| >= 1
    requires forall i | 0 <= i < |parts| :: sep !in parts[i]
    ensures Split(Join(parts, sep), sep) == parts
  {
    if |parts| == 1 {
      SplitNoSeparator(parts[0], sep);
    } else {
      SplitJoin(parts[1..], sep);
      SplitAround(parts[0], sep, Join(parts[1..], sep));
      SplitNoSeparator(parts[0], sep);
    }
  }

  /** Splitting then joining gives back the string. */
  lemma {:induction false} JoinSplit(s: string, sep: char)
    ensures Join(Split(s, sep), sep) == s
  {
    if s != [] {
      JoinSplit(s[1..], sep);
      var rest := Split(s[1..], sep);
      if s[0] != sep {
        if |rest| > 1 {
          assert ([[s[0]] + rest[0]] + rest[1..])[1..] == rest[1..];
        }
      }
    }
  }

  // ---------------------------------------------------------------------
  // Decimal text

  predicate IsDigit(c: char)
  {
    '0' <= c <= '9'
  }

  predicate AllDigits(s: string)
  {
    forall i | 0 <= i < |s| :: IsDigit(s[i])
  }

  function DigitValue(c: char): nat
    requires IsDigit(c)
  {
    (c - '0') as nat
  }

  function DigitChar(d: nat): (c: char)
    requires d < 10
    ensures IsDigit(c) && DigitValue(c) == d
  {
    (d as int + '0' as int) as char
  }

  /** The value of a string of decimal digits, most significant first. */
  function DigitsValue(s: string): nat
    requires AllDigits(s)
  {
    if s == [] then 0
    else DigitsValue(s[..|s| - 1]) * 10 + DigitValue(s[|s| - 1])
  }

  /** The shortest decimal digits of n ("0" for zero). */
  function NatToDigits(n: nat): (s: string)
    ensures |s| >= 1 && AllDigits(s)
  {
    if n < 10 then [DigitChar(n)] else NatToDigits(n / 10) + [DigitChar(n % 10)]
  }

  lemma {:induction false} DigitsRoundTrip(n: nat)
    ensures DigitsValue(NatToDigits(n)) == n
  {
    if n >= 10 {
      DigitsRoundTrip(n / 10);
      var s := NatToDigits(n);
      assert s[..|s| - 1] == NatToDigits(n / 10);
    }
  }

  /** int.ToString() with the invariant culture: a minus sign for negatives, then the digits. */
  function IntToString(n: int): (s: string)
    ensures |s| >= 1
    ensures SEP !in s
  {
    if n < 0 then "-" + NatToDigits(-n) else NatToDigits(n)
  }

  /** The white space int.Parse skips at either end: tab to carriage return, and space. */
  predicate IsWhiteSpace(c: char)
  {
    c == ' ' || '\t' <= c <= '\r'
  }

  function TrimStart(s: string): (r: string)
    ensures |r| <= |s|
    ensures r != [] ==> !IsWhiteSpace(r[0])
  {
    if s != [] && IsWhiteSpace(s[0]) then TrimStart(s[1..]) else s
  }

  function TrimEnd(s: string): (r: string)
    ensures r != [] ==> !IsWhiteSpace(r[|r| - 1])
  {
    if s != [] && IsWhiteSpace(s[|s| - 1]) then TrimEnd(s[..|s| - 1]) else s
  }

  function Trim(s: string): string
  {
    TrimEnd(TrimStart(s))
  }

  /** Apart from surrounding white space: a sign, then digits. */
  function ParseSigned(t: string): Option<int>
  {
    if t == [] then None
    else
      var negative := t[0] == '-';
      var digits := if t[0] == '-' || t[0] == '+' then t[1..] else t;
      if digits == [] || !AllDigits(digits) then None
      else
        var magnitude: int := DigitsValue(digits);
        Some(if negative then -magnitude else magnitude)
  }

  /**
   * int.Parse: None where the library throws, either a format error (no
   * digits, a stray character) or an overflow (outside 32 bits).
   */
  function ParseInt(s: string): (r: Option<int>)
    ensures r.Some? ==> IsInt32(r.value)
  {
    match ParseSigned(Trim(s))
    case None => None
    case Some(n) =>
      if IsInt32(n) then Some(n) else None
  }

  lemma TrimKeepsDigits(s: string)
    requires ParseSigned(Trim(s)).Some?
    ensures exists i | 0 <= i < |s| :: IsDigit(s[i])
  {
    var t := Trim(s);
    var k := TrimIsInfix(s);
    var j := if t[0] == '-' || t[0] == '+' then 1 else 0;
    assert IsDigit(t[j]);
    assert s[k + j] == t[j];
  }

  /** Trimming only removes characters from the two ends. */
  lemma {:induction false} TrimIsInfix(s: string) returns (k: nat)
    ensures k + |Trim(s)| <= |s| && Trim(s) == s[k..k + |Trim(s)|]
  {
    k := TrimStartIsSuffix(s);
    var n := TrimEndIsPrefix(TrimStart(s));
  }

  lemma {:induction false} TrimStartIsSuffix(s: string) returns (k: nat)
    ensures k <= |s| && TrimStart(s) == s[k..]
  {
    if s != [] && IsWhiteSpace(s[0]) {
      var k' := TrimStartIsSuffix(s[1..]);
      k := k' + 1;
    } else {
      k := 0;
    }
  }

  lemma {:induction false} TrimEndIsPrefix(s: string) returns (n: nat)
    ensures n <= |s| && TrimEnd(s) == s[..n]
  {
    if s != [] && IsWhiteSpace(s[|s| - 1]) {
      n := TrimEndIsPrefix(s[..|s| - 1]);
    } else {
      n := |s|;
    }
  }

  /** A string that starts and ends with something other than white space is its own trim. */
  lemma TrimUntouched(s: string)
    requires s != [] && !IsWhiteSpace(s[0]) && !IsWhiteSpace(s[|s| - 1])
    ensures Trim(s) == s
  {
  }

  /** int.Parse reads back what ToString writes, for every 32-bit value. */
  lemma ParseIntToString(n: int)
    requires IsInt32(n)
    ensures ParseInt(IntToString(n)) == Some(n)
  {
    var s := IntToString(n);
    var m: nat := if n < 0 then -n else n;
    DigitsRoundTrip(m);
    var digits := NatToDigits(m);
    assert IsDigit(digits[0]) && IsDigit(digits[|digits| - 1]);
    if n < 0 {
      assert s[1..] == digits;
      assert s[|s| - 1] == digits[|digits| - 1];
    }
    TrimUntouched(s);
  }

  // ---------------------------------------------------------------------
  // Room names

  /**
   * The name a room at c carries: "Room_" + x + "_" + y. Split on '_', it
   * falls apart into exactly "Room" and the two numbers.
   */
  function RoomName(c: Coord): (name: string)
    ensures Split(name, SEP) == ["Room", IntToString(c.x), IntToString(c.y)]
  {
    var xs, ys := IntToString(c.x), IntToString(c.y);
    var name := "Room" + [SEP] + xs + [SEP] + ys;
    assert Join(["Room", xs, ys], SEP) == name by {
      assert ["Room", xs, ys][1..] == [xs, ys];
      assert [xs, ys][1..] == [ys];
      assert Join([xs, ys], SEP) == xs + [SEP] + ys;
      assert "Room" + [SEP] + (xs + [SEP] + ys) == name;
    }
    assert SEP !in "Room";
    SplitJoin(["Room", xs, ys], SEP);
    name
  }

  /**
   * ParseRoomCoord: split on '_' and parse the second and third parts. The
   * first part and any parts after the third are not looked at. None where
   * the source throws: fewer than three parts, or a part that int.Parse rejects.
   */
  function ParseRoomCoord(name: string): (r: Option<Coord>)
    ensures r.Some? ==> |Split(name, SEP)| >= 3
    ensures r.Some? ==> IsInt32(r.value.x) && IsInt32(r.value.y)
  {
    var parts := Split(name, SEP);
    if |parts| < 3 then None
    else
      match (ParseInt(parts[1]), ParseInt(parts[2]))
      case (Some(x), Some(y)) => Some(Coord(x, y))
      case _ => None
  }

  /** Every 32-bit coordinate's room name parses back to that coordinate. */
  lemma RoomNameRoundTrip(c: Coord)
    requires IsInt32(c.x) && IsInt32(c.y)
    ensures ParseRoomCoord(RoomName(c)) == Some(c)
  {
    ParseIntToString(c.x);
    ParseIntToString(c.y);
  }

  /** A name with fewer than two separators has fewer than three parts and is rejected. */
  lemma ShortNameRejected(name: string)
    requires |Split(name, SEP)| < 3
    ensures ParseRoomCoord(name) == None
  {
  }

  /** A field that int.Parse rejects makes the whole name rejected. */
  lemma BadFieldRejected(name: string)
    requires |Split(name, SEP)| >= 3
    requires ParseInt(Split(name, SEP)[1]) == None || ParseInt(Split(name, SEP)[2]) == None
    ensures ParseRoomCoord(name) == None
  {
  }

  /** A field with no digit at all, such as an empty one, is rejected by int.Parse. */
  lemma NoDigitRejected(field: string)
    requires forall i | 0 <= i < |field| :: !IsDigit(field[i])
    ensures ParseInt(field) == None
  {
    if ParseSigned(Trim(field)).Some? {
      TrimKeepsDigits(field);
    }
  }

  /** Whatever follows a third separator is ignored, and so is the first part. */
  lemma {:induction false} TrailingPartsIgnored(name: string, tail: string)
    requires |Split(name, SEP)| >= 3
    ensures ParseRoomCoord(name + [SEP] + tail) == ParseRoomCoord(name)
  {
    SplitAround(name, SEP, tail);
    var p, q := Split(name, SEP), Split(name + [SEP] + tail, SEP);
    assert q[1] == p[1] && q[2] == p[2];
  }

  /** A 33-bit x coordinate overflows int.Parse, so its room name is rejected. */
  lemma OverflowRejected()
    ensures ParseRoomCoord(RoomName(Coord(INT32_MAX + 1, 0))) == None
  {
    var c := Coord(INT32_MAX + 1, 0);
    var xs := IntToString(c.x);
    assert Split(RoomName(c), SEP)[1] == xs;
    assert ParseInt(xs) == None by {
      var digits := NatToDigits(c.x);
      DigitsRoundTrip(c.x);
      assert IsDigit(digits[0]) && IsDigit(digits[|digits| - 1]);
      TrimUntouched(xs);
    }
  }
}

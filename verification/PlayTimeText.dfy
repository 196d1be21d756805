/** The lines of the play-time file: how one is printed and how one is read back
    (src/GameList.cpp:43-47, 982-1015; src/common/StringUtil.h:71-80;
    src/common/StringUtil.cpp:244-257). */
module PlayTimeText {

  import opened Basics

  const SERIAL_LENGTH := 32
  const TIME_LENGTH := 20
  /** serial, space, total time, space, last time, newline */
  const LINE_LENGTH := 75

  const TWO_63 := 0x8000_0000_0000_0000
  const TWO_64 := 0x1_0000_0000_0000_0000

  const NUL: char := 0 as char

  /** Two time_t values: signed 64 bits. */
  datatype Played = Played(last: int, total: int)

  datatype Record = Record(serial: string, played: Played)

  // ---- Numbers ----

  predicate IsDigit(c: char) { '0' <= c <= '9' }

  function DigitChar(d: nat): char
    requires d < 10
  {
    ('0' as int + d) as char
  }

  function Decimal(n: nat): (s: string)
    ensures |s| >= 1 && forall i :: 0 <= i < |s| ==> IsDigit(s[i])
  {
    if n < 10 then [DigitChar(n)] else Decimal(n / 10) + [DigitChar(n % 10)]
  }

  /** fmt's rendering of a signed 64-bit number. */
  function Rendered(v: int): string { if v < 0 then "-" + Decimal(-v) else Decimal(v) }

  function Value(s: string): nat
    requires forall i :: 0 <= i < |s| ==> IsDigit(s[i])
  {
    if s == "" then 0
    else
      assert IsDigit(s[|s| - 1]);
      10 * Value(s[..|s| - 1]) + (s[|s| - 1] as int - '0' as int)
  }

  /** How many leading characters are digits. */
  function DigitsIn(s: string): (n: nat)
    ensures n <= |s| && forall i :: 0 <= i < n ==> IsDigit(s[i])
    ensures n < |s| ==> !IsDigit(s[n])
  {
    if s == "" || !IsDigit(s[0]) then 0 else 1 + DigitsIn(s[1..])
  }

  /** std::from_chars for an unsigned 64-bit number: the leading digits, whatever follows. */
  function FromChars(s: string): Option<nat>
  {
    var k := DigitsIn(s);
    if k == 0 || Value(s[..k]) >= TWO_64 then None else Some(Value(s[..k]))
  }

  /** The cast of an unsigned 64-bit number to time_t. */
  function AsTime(v: nat): int { if v >= TWO_63 then v - TWO_64 else v }

  function Pow10(k: nat): nat { if k == 0 then 1 else 10 * Pow10(k - 1) }

  lemma {:induction false} DecimalFits(n: nat, k: nat)
    requires n < Pow10(k) && k >= 1
    ensures |Decimal(n)| <= k
  {
    if n >= 10 {
      assert Pow10(k) == 10 * Pow10(k - 1);
      DecimalFits(n / 10, k - 1);
    }
  }

  lemma TimeFits(v: int)
    requires IsTime(v)
    ensures |Rendered(v)| <= TIME_LENGTH
  {
    Pow10Nineteen();
    DecimalFits(if v < 0 then -v else v, 19);
  }

  lemma Pow10Nineteen()
    ensures Pow10(19) == 10_000_000_000_000_000_000
  {
    assert Pow10(5) == 100_000;
    assert Pow10(10) == 10_000_000_000;
    assert Pow10(15) == 1_000_000_000_000_000;
  }

  lemma {:induction false} ValueOfDecimal(n: nat)
    ensures Value(Decimal(n)) == n
  {
    if n < 10 {
      assert Decimal(n)[..0] == "";
      assert Value(Decimal(n)[..0]) == 0;
    } else {
      ValueOfDecimal(n / 10);
      assert Decimal(n)[..|Decimal(n)| - 1] == Decimal(n / 10);
    }
  }

  lemma {:induction false} DigitsInAll(s: string)
    requires forall i :: 0 <= i < |s| ==> IsDigit(s[i])
    ensures DigitsIn(s) == |s|
  {
    if s != "" {
      DigitsInAll(s[1..]);
    }
  }

  /** What is printed for a time is read back as that time exactly when it is not negative. */
  lemma FromRendered(v: int)
    requires -TWO_63 <= v < TWO_63
    ensures v >= 0 ==> FromChars(Rendered(v)) == Some(v) && AsTime(v) == v
    ensures v < 0 ==> FromChars(Rendered(v)) == None
  {
    if v >= 0 {
      ValueOfDecimal(v);
      DigitsInAll(Decimal(v));
      assert Decimal(v)[..|Decimal(v)|] == Decimal(v);
    } else {
      assert Rendered(v)[0] == '-';
    }
  }

  // ---- White space and padding ----

  predicate IsSpace(c: char) { c == ' ' || 9 <= c as int <= 13 }

  /** Blank, tab, line feed, vertical tab, form feed and carriage return. */
  lemma SpaceChars(c: char)
    ensures IsSpace(c) <==> c as int in {32, 9, 10, 11, 12, 13}
  {
  }

  function StripLeft(s: string): string
  {
    if s != "" && IsSpace(s[0]) then StripLeft(s[1..]) else s
  }

  function StripRight(s: string): string
  {
    if s != "" && IsSpace(s[|s| - 1]) then StripRight(s[..|s| - 1]) else s
  }

  function Strip(s: string): string { StripRight(StripLeft(s)) }

  function Spaces(n: nat): (s: string)
    ensures |s| == n && forall i :: 0 <= i < n ==> s[i] == ' '
  {
    seq(n, i => ' ')
  }

  /** Left-justified in a field of that width; longer text is not cut. */
  function Pad(s: string, width: nat): (p: string)
    ensures |p| == if |s| < width then width else |s|
  {
    if |s| < width then s + Spaces(width - |s|) else s
  }

  /** Neither end is white space. */
  predicate Bare(s: string) { s != "" ==> !IsSpace(s[0]) && !IsSpace(s[|s| - 1]) }

  lemma {:induction false} StripRightSpaces(s: string, n: nat)
    requires s != "" && !IsSpace(s[|s| - 1])
    ensures StripRight(s + Spaces(n)) == s
    decreases n
  {
    if n == 0 {
      assert s + Spaces(0) == s;
    } else {
      assert (s + Spaces(n))[..|s| + n - 1] == s + Spaces(n - 1);
      StripRightSpaces(s, n - 1);
    }
  }

  lemma StripPadded(s: string, width: nat)
    requires s != "" && Bare(s)
    ensures Strip(Pad(s, width)) == s
  {
    if |s| < width {
      assert Pad(s, width)[0] == s[0];
      StripRightSpaces(s, width - |s|);
    }
  }

  lemma {:induction false} StripLeftIsBare(s: string)
    ensures StripLeft(s) != "" ==> !IsSpace(StripLeft(s)[0])
    ensures |StripLeft(s)| <= |s|
  {
    if s != "" && IsSpace(s[0]) {
      StripLeftIsBare(s[1..]);
    }
  }

  lemma {:induction false} StripRightIsBare(s: string)
    ensures StripRight(s) <= s
    ensures StripRight(s) != "" ==> !IsSpace(StripRight(s)[|StripRight(s)| - 1])
  {
    if s != "" && IsSpace(s[|s| - 1]) {
      StripRightIsBare(s[..|s| - 1]);
    }
  }

  lemma StripIsBare(s: string)
    ensures Bare(Strip(s))
  {
    StripLeftIsBare(s);
    StripRightIsBare(StripLeft(s));
  }

  // ---- Lines ----

  /** strlen on a line buffer. */
  function StrLen(s: string): (n: nat)
    ensures n <= |s| && forall i :: 0 <= i < n ==> s[i] != NUL
    ensures n < |s| ==> s[n] == NUL
  {
    if s == "" || s[0] == NUL then 0 else 1 + StrLen(s[1..])
  }

  function ParseLine(line: string): Option<Record>
  {
    if StrLen(line) != LINE_LENGTH then None
    else
      var serial := Strip(line[..32]);
      var total := FromChars(Strip(line[33..53]));
      var last := FromChars(Strip(line[54..74]));
      if serial == "" || last.None? || total.None? then None
      else Some(Record(serial, Played(AsTime(last.value), AsTime(total.value))))
  }

  function MakeLine(serial: string, p: Played): string
  {
    Pad(serial, SERIAL_LENGTH) + " " + Pad(Rendered(p.total), TIME_LENGTH) + " " + Pad(Rendered(p.last), TIME_LENGTH)
      + "\n"
  }

  predicate IsTime(v: int) { -TWO_63 <= v < TWO_63 }

  /** A serial the fixed-width field can hold. */
  predicate Storable(serial: string)
  {
    serial != "" && |serial| <= SERIAL_LENGTH && Bare(serial) && NUL !in serial
  }

  lemma LineParts(serial: string, p: Played)
    requires |serial| <= SERIAL_LENGTH && IsTime(p.last) && IsTime(p.total)
    ensures var line := MakeLine(serial, p);
            && |line| == LINE_LENGTH
            && line[..32] == Pad(serial, SERIAL_LENGTH)
            && line[33..53] == Pad(Rendered(p.total), TIME_LENGTH)
            && line[54..74] == Pad(Rendered(p.last), TIME_LENGTH)
            && line[32] == ' ' && line[53] == ' ' && line[74] == '\n'
  {
    hide Pad, Rendered;
    TimeFits(p.last);
    TimeFits(p.total);
    var a, b, c := Pad(serial, SERIAL_LENGTH), Pad(Rendered(p.total), TIME_LENGTH), Pad(Rendered(p.last), TIME_LENGTH);
    assert MakeLine(serial, p) == a + (" " + (b + (" " + (c + "\n"))));
  }

  /** Every character but the last comes from the serial or is printable. */
  lemma LineChars(serial: string, p: Played, c: char)
    requires |serial| <= SERIAL_LENGTH && IsTime(p.last) && IsTime(p.total)
    requires c !in serial && !IsDigit(c) && c != ' ' && c != '-'
    ensures c !in MakeLine(serial, p)[..74]
    ensures c != '\n' ==> c !in MakeLine(serial, p)
  {
    LineParts(serial, p);
    var line := MakeLine(serial, p);
    PadChars(serial, SERIAL_LENGTH, c);
    RenderedChars(p.total, c);
    RenderedChars(p.last, c);
    PadChars(Rendered(p.total), TIME_LENGTH, c);
    PadChars(Rendered(p.last), TIME_LENGTH, c);
    forall i | 0 <= i < 74 ensures line[i] != c {
      hide Pad, Rendered, MakeLine;
      if i < 32 {
        assert line[i] == line[..32][i];
      } else if 33 <= i < 53 {
        assert line[i] == line[33..53][i - 33];
      } else if 54 <= i {
        assert line[i] == line[54..74][i - 54];
      }
    }
  }

  lemma PadKeeps(s: string, width: nat, k: nat)
    requires k < |s|
    ensures Pad(s, width)[k] == s[k]
  {
  }

  lemma PadChars(s: string, width: nat, c: char)
    requires c !in s && c != ' '
    ensures c !in Pad(s, width)
  {
  }

  lemma RenderedChars(v: int, c: char)
    requires !IsDigit(c) && c != '-'
    ensures c !in Rendered(v)
  {
  }

  lemma {:induction false} StrLenIs(s: string)
    ensures NUL !in s ==> StrLen(s) == |s|
  {
    if s != "" && NUL !in s {
      StrLenIs(s[1..]);
    }
  }

  lemma FromPadded(v: int)
    requires IsTime(v)
    ensures v >= 0 ==> FromChars(Strip(Pad(Rendered(v), TIME_LENGTH))) == Some(v) && AsTime(v) == v
    ensures v < 0 ==> FromChars(Strip(Pad(Rendered(v), TIME_LENGTH))) == None
  {
    assert Bare(Rendered(v));
    StripPadded(Rendered(v), TIME_LENGTH);
    FromRendered(v);
  }

  /** A printed line reads back as what was printed exactly when the serial fits the field
      and neither time is negative. */
  lemma ParseMakeLine(serial: string, p: Played)
    requires IsTime(p.last) && IsTime(p.total)
    ensures ParseLine(MakeLine(serial, p)) == Some(Record(serial, p))
            <==> Storable(serial) && p.last >= 0 && p.total >= 0
  {
    hide FromChars, Strip, Rendered, MakeLine, Pad, AsTime, Bare;
    var line := MakeLine(serial, p);
    if |serial| <= SERIAL_LENGTH {
      LineParts(serial, p);
      FromPadded(p.last);
      FromPadded(p.total);
      if NUL !in serial {
        LineChars(serial, p, NUL);
        StrLenIs(line);
        ParseFits(serial, p);
      } else {
        var k :| 0 <= k < |serial| && serial[k] == NUL;
        PadKeeps(serial, SERIAL_LENGTH, k);
        assert line[..32][k] == NUL;
        assert line[k] == NUL;
        assert StrLen(line) <= k;
      }
    } else if StrLen(line) == LINE_LENGTH {
      StripLength(line[..32]);
    }
  }

  lemma StripLength(s: string)
    ensures |Strip(s)| <= |s|
  {
    StripLeftIsBare(s);
    StripRightIsBare(StripLeft(s));
  }

  lemma ParseFits(serial: string, p: Played)
    requires |serial| <= SERIAL_LENGTH && NUL !in serial && IsTime(p.last) && IsTime(p.total)
    requires StrLen(MakeLine(serial, p)) == LINE_LENGTH
    ensures ParseLine(MakeLine(serial, p)) == Some(Record(serial, p))
            <==> Storable(serial) && p.last >= 0 && p.total >= 0
  {
    hide FromChars, Strip, Rendered, MakeLine, Pad, AsTime, Bare;
    LineParts(serial, p);
    FromPadded(p.last);
    FromPadded(p.total);
    StripIsBare(Pad(serial, SERIAL_LENGTH));
    if serial != "" && Bare(serial) {
      StripPadded(serial, SERIAL_LENGTH);
    }
  }

  // ---- Times of more than 63 bits ----

  /** The number a line holds for its total and for its last time, before it becomes a time. */
  function TotalField(line: string): Option<nat>
    requires |line| >= LINE_LENGTH
  {
    FromChars(Strip(line[33..53]))
  }

  function LastField(line: string): Option<nat>
    requires |line| >= LINE_LENGTH
  {
    FromChars(Strip(line[54..74]))
  }

  /** Whatever line is read, a time comes out negative exactly if the line's number has more than 63
      bits; it is then too small by two to the 64, and what is printed for it is not read back. */
  lemma HighTimesTurnNegative(line: string)
    requires ParseLine(line).Some?
    ensures TotalField(line).Some? && LastField(line).Some?
    ensures var p := ParseLine(line).value.played;
            && (p.total < 0 <==> TotalField(line).value >= TWO_63)
            && (p.last < 0 <==> LastField(line).value >= TWO_63)
            && p.total == TotalField(line).value - (if p.total < 0 then TWO_64 else 0)
            && p.last == LastField(line).value - (if p.last < 0 then TWO_64 else 0)
            && (p.total < 0 || p.last < 0 ==>
                  forall serial :: ParseLine(MakeLine(serial, p)) != Some(Record(serial, p)))
  {
    hide Strip, Pad, Rendered, MakeLine;
    FromCharsBound(Strip(line[33..53]));
    FromCharsBound(Strip(line[54..74]));
    hide FromChars;
    var p := ParseLine(line).value.played;
    hide ParseLine;
    forall serial | p.total < 0 || p.last < 0
      ensures ParseLine(MakeLine(serial, p)) != Some(Record(serial, p))
    {
      ParseMakeLine(serial, p);
    }
  }

  lemma FromCharsBound(s: string)
    ensures FromChars(s).Some? ==> FromChars(s).value < TWO_64
  {
  }

  function PowerOfTen(k: nat): (s: string)
    ensures |s| == k + 1 && s[0] == '1' && forall i :: 0 < i <= k ==> s[i] == '0'
  {
    ['1'] + seq(k, i => '0')
  }

  lemma {:induction false} ValueOfPower(k: nat)
    ensures Value(PowerOfTen(k)) == Pow10(k)
  {
    var s := PowerOfTen(k);
    if k == 0 {
      assert s[..0] == "";
    } else {
      assert s[..k] == PowerOfTen(k - 1);
      ValueOfPower(k - 1);
    }
  }

  lemma PowerField(k: nat)
    requires k <= 19
    ensures FromChars(Strip(Pad(PowerOfTen(k), TIME_LENGTH))) == Some(Pow10(k))
  {
    var s := PowerOfTen(k);
    StripPadded(s, TIME_LENGTH);
    DigitsInAll(s);
    ValueOfPower(k);
    assert s[..|s|] == s;
    PowersGrow(k, 19);
    Pow10Nineteen();
  }

  lemma {:induction false} PowersGrow(k: nat, m: nat)
    requires k <= m
    ensures Pow10(k) <= Pow10(m)
  {
    if k < m {
      PowersGrow(k, m - 1);
    }
  }

  /** A line whose total, ten to the 19, is read as a negative time. */
  const HIGH_LINE: string := "SLUS-20312" + Spaces(22) + " " + "10000000000000000000" + " " + "1000000000" + Spaces(10)
    + "\n"

  lemma HighLineTurnsNegative()
    ensures |HIGH_LINE| == LINE_LENGTH
    ensures ParseLine(HIGH_LINE) ==
      Some(Record("SLUS-20312", Played(1_000_000_000, 10_000_000_000_000_000_000 - TWO_64)))
  {
    hide Strip, FromChars, StrLen, Pad;
    Pow10Nineteen();
    PowerField(19);
    PowerField(9);
    assert Pow10(9) == 1_000_000_000 by { assert Pow10(5) == 100_000; }
    StripPadded("SLUS-20312", SERIAL_LENGTH);
    HighFields();
    StrLenIs(HIGH_LINE);
  }

  lemma HighFields()
    ensures |HIGH_LINE| == LINE_LENGTH && NUL !in HIGH_LINE
    ensures HIGH_LINE[..32] == Pad("SLUS-20312", SERIAL_LENGTH)
    ensures HIGH_LINE[33..53] == Pad(PowerOfTen(19), TIME_LENGTH)
    ensures HIGH_LINE[54..74] == Pad(PowerOfTen(9), TIME_LENGTH)
  {
    var a, b, c := "SLUS-20312" + Spaces(22), "10000000000000000000", "1000000000" + Spaces(10);
    assert PowerOfTen(19) == b && PowerOfTen(9) == "1000000000";
    assert |b| == 20 && NUL !in "SLUS-20312" && NUL !in b && NUL !in "1000000000";
    assert HIGH_LINE == a + " " + b + " " + c + "\n";
    Fields(a, b, c);
  }

  lemma Fields(a: string, b: string, c: string)
    requires |a| == SERIAL_LENGTH && |b| == |c| == TIME_LENGTH && NUL !in a && NUL !in b && NUL !in c
    ensures var l := a + " " + b + " " + c + "\n";
            |l| == LINE_LENGTH && NUL !in l && l[..32] == a && l[33..53] == b && l[54..74] == c
  {
  }
}

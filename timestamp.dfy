/**
 The two renderings of the capture time `now`: the `"%Y-%m-%d %H:%M:%S"` string stored as a
 code's first_seen, and the `"%Y%m%d_%H%M%S.jpg"` name of the archived frame. Both are built
 from zero-padded decimal fields at second resolution; the microseconds of `now` are dropped.
 */
module Timestamp {

  /** A calendar date and wall-clock time, as a `datetime` value holds it. */
  datatype DateTime = DateTime(year: int, month: int, day: int,
                               hour: int, minute: int, second: int, microsecond: int)

  predicate IsLeapYear(y: int) {
    y % 4 == 0 && (y % 100 != 0 || y % 400 == 0)
  }

  function DaysInMonth(y: int, m: int): int
    requires 1 <= m <= 12
  {
    if m == 2 then (if IsLeapYear(y) then 29 else 28)
    else if m == 4 || m == 6 || m == 9 || m == 11 then 30
    else 31
  }

  /** The range of values a clock reading can take (four-digit years only). */
  predicate Valid(t: DateTime) {
    1000 <= t.year <= 9999 &&
    1 <= t.month <= 12 && 1 <= t.day <= DaysInMonth(t.year, t.month) &&
    0 <= t.hour < 24 && 0 <= t.minute < 60 && 0 <= t.second < 60 &&
    0 <= t.microsecond < 1000000
  }

  type Instant = t: DateTime | Valid(t) witness DateTime(2000, 1, 1, 0, 0, 0, 0)

  /** Two instants that agree on every field down to the second. */
  predicate SameSecond(a: DateTime, b: DateTime) {
    a.year == b.year && a.month == b.month && a.day == b.day &&
    a.hour == b.hour && a.minute == b.minute && a.second == b.second
  }

  predicate IsDigit(c: char) {
    '0' <= c <= '9'
  }

  predicate AllDigits(s: string) {
    forall i :: 0 <= i < |s| ==> IsDigit(s[i])
  }

  function DigitChar(d: int): (c: char)
    requires 0 <= d < 10
    ensures IsDigit(c) && c as int - '0' as int == d
  {
    ('0' as int + d) as char
  }

  /** The number a string of decimal digits denotes, most significant digit first. */
  function DecimalValue(s: string): int {
    if s == [] then 0
    else 10 * DecimalValue(s[..|s| - 1]) + (s[|s| - 1] as int - '0' as int)
  }

  /** `n` written with exactly two digits, as `%m`, `%d`, `%H`, `%M` and `%S` write it. */
  function Pad2(n: int): (r: string)
    requires 0 <= n < 100
    ensures |r| == 2
  {
    [DigitChar(n / 10), DigitChar(n % 10)]
  }

  /** `n` written with exactly four digits, as `%Y` writes a four-digit year. */
  function Pad4(n: int): (r: string)
    requires 0 <= n < 10000
    ensures |r| == 4
  {
    Pad2(n / 100) + Pad2(n % 100)
  }

  /** The two digits read back as `n`. */
  lemma Pad2Reads(n: int)
    requires 0 <= n < 100
    ensures AllDigits(Pad2(n)) && DecimalValue(Pad2(n)) == n
  {
    var r := Pad2(n);
    assert r[..1] == [DigitChar(n / 10)] && r[..1][..0] == [];
    assert DecimalValue(r[..1]) == n / 10;
  }

  /** The four digits read back as `n`. */
  lemma Pad4Reads(n: int)
    requires 0 <= n < 10000
    ensures AllDigits(Pad4(n)) && DecimalValue(Pad4(n)) == n
  {
    var hi, lo := Pad2(n / 100), Pad2(n % 100);
    Pad2Reads(n / 100);
    Pad2Reads(n % 100);
    var r := Pad4(n);
    assert r == hi + lo;
    assert r[..3] == hi + [r[2]];
    assert r[..2] == hi;
    assert r[..3][..2] == r[..2];
  }

  /** The `first_seen` text: `now.strftime("%Y-%m-%d %H:%M:%S")`. */
  function DbTimestamp(t: Instant): (r: string)
    ensures |r| == 19
    ensures r[4] == '-' && r[7] == '-' && r[10] == ' ' && r[13] == ':' && r[16] == ':'
  {
    Pad4(t.year) + "-" + Pad2(t.month) + "-" + Pad2(t.day) + " "
    + Pad2(t.hour) + ":" + Pad2(t.minute) + ":" + Pad2(t.second)
  }

  /** The archive file name: `now.strftime("%Y%m%d_%H%M%S") + ".jpg"`. */
  function ArchiveName(t: Instant): (r: string)
    ensures |r| == 19
    ensures r[8] == '_' && r[15..] == ".jpg"
  {
    Pad4(t.year) + Pad2(t.month) + Pad2(t.day) + "_"
    + Pad2(t.hour) + Pad2(t.minute) + Pad2(t.second) + ".jpg"
  }

  /** Reading the first_seen text back: each field between the separators is all digits and
      denotes the corresponding field of the clock reading. */
  lemma DbTimestampReadsBack(t: Instant)
    ensures var r := DbTimestamp(t);
      AllDigits(r[..4]) && DecimalValue(r[..4]) == t.year &&
      AllDigits(r[5..7]) && DecimalValue(r[5..7]) == t.month &&
      AllDigits(r[8..10]) && DecimalValue(r[8..10]) == t.day &&
      AllDigits(r[11..13]) && DecimalValue(r[11..13]) == t.hour &&
      AllDigits(r[14..16]) && DecimalValue(r[14..16]) == t.minute &&
      AllDigits(r[17..]) && DecimalValue(r[17..]) == t.second
  {
    var r := DbTimestamp(t);
    Pad4Reads(t.year);
    Pad2Reads(t.month);
    Pad2Reads(t.day);
    Pad2Reads(t.hour);
    Pad2Reads(t.minute);
    Pad2Reads(t.second);
    assert r[..4] == Pad4(t.year);
    assert r[5..7] == Pad2(t.month);
    assert r[8..10] == Pad2(t.day);
    assert r[11..13] == Pad2(t.hour);
    assert r[14..16] == Pad2(t.minute);
    assert r[17..] == Pad2(t.second);
  }

  /** Reading the file name back: the date and time digits denote the fields of the clock
      reading. */
  lemma ArchiveNameReadsBack(t: Instant)
    ensures var r := ArchiveName(t);
      AllDigits(r[..4]) && DecimalValue(r[..4]) == t.year &&
      AllDigits(r[4..6]) && DecimalValue(r[4..6]) == t.month &&
      AllDigits(r[6..8]) && DecimalValue(r[6..8]) == t.day &&
      AllDigits(r[9..11]) && DecimalValue(r[9..11]) == t.hour &&
      AllDigits(r[11..13]) && DecimalValue(r[11..13]) == t.minute &&
      AllDigits(r[13..15]) && DecimalValue(r[13..15]) == t.second
  {
    var r := ArchiveName(t);
    Pad4Reads(t.year);
    Pad2Reads(t.month);
    Pad2Reads(t.day);
    Pad2Reads(t.hour);
    Pad2Reads(t.minute);
    Pad2Reads(t.second);
    assert r[..4] == Pad4(t.year);
    assert r[4..6] == Pad2(t.month);
    assert r[6..8] == Pad2(t.day);
    assert r[9..11] == Pad2(t.hour);
    assert r[11..13] == Pad2(t.minute);
    assert r[13..15] == Pad2(t.second);
  }

  /** Two concatenations that are equal and end in pieces of equal length agree piecewise. */
  lemma AppendCancel(a1: string, b1: string, a2: string, b2: string)
    requires a1 + b1 == a2 + b2 && |b1| == |b2|
    ensures a1 == a2 && b1 == b2
  {
    assert a1 == (a1 + b1)[..|a1|];
    assert a2 == (a2 + b2)[..|a2|];
    assert b1 == (a1 + b1)[|a1|..];
    assert b2 == (a2 + b2)[|a2|..];
  }

  lemma Pad2Injective(m: int, n: int)
    requires 0 <= m < 100 && 0 <= n < 100 && Pad2(m) == Pad2(n)
    ensures m == n
  {
    Pad2Reads(m);
    Pad2Reads(n);
  }

  lemma Pad4Injective(m: int, n: int)
    requires 0 <= m < 10000 && 0 <= n < 10000 && Pad4(m) == Pad4(n)
    ensures m == n
  {
    Pad4Reads(m);
    Pad4Reads(n);
  }

  /** The text left when the separators of the database format are removed:
      `-` and `:` are dropped and the space becomes `_`. */
  function Compact(s: string): string {
    if s == [] then []
    else (if s[0] == '-' || s[0] == ':' then "" else if s[0] == ' ' then "_" else [s[0]])
         + Compact(s[1..])
  }

  lemma {:induction false} CompactAppend(a: string, b: string)
    ensures Compact(a + b) == Compact(a) + Compact(b)
  {
    if a == [] {
      assert a + b == b;
    } else {
      assert (a + b)[0] == a[0] && (a + b)[1..] == a[1..] + b;
      CompactAppend(a[1..], b);
    }
  }

  lemma {:induction false} CompactDigits(s: string)
    requires AllDigits(s)
    ensures Compact(s) == s
  {
    if s != [] {
      assert AllDigits(s[1..]);
      CompactDigits(s[1..]);
    }
  }

  /** The file name is the database timestamp with its separators removed, plus `.jpg`:
      both come from the same reading of the clock. */
  lemma ArchiveNameCompactsDbTimestamp(t: Instant)
    ensures ArchiveName(t) == Compact(DbTimestamp(t)) + ".jpg"
  {
    var y, mo, d, h, mi, s := Pad4(t.year), Pad2(t.month), Pad2(t.day),
                              Pad2(t.hour), Pad2(t.minute), Pad2(t.second);
    Pad4Reads(t.year); Pad2Reads(t.month); Pad2Reads(t.day);
    Pad2Reads(t.hour); Pad2Reads(t.minute); Pad2Reads(t.second);
    CompactDigits(y);
    assert Compact("-") == [] by { assert "-"[1..] == []; }
    assert Compact(":") == [] by { assert ":"[1..] == []; }
    var p2 := y + "-" + mo;   CompactDropped(y, "-", mo);
    var p4 := p2 + "-" + d;   CompactDropped(p2, "-", d);
    var p6 := p4 + " " + h;   CompactSpace(p4, h);
    var p8 := p6 + ":" + mi;  CompactDropped(p6, ":", mi);
    var p10 := p8 + ":" + s;  CompactDropped(p8, ":", s);
    assert DbTimestamp(t) == p10;
  }

  /** A dropped separator and the digit field after it, compacted. */
  lemma CompactDropped(p: string, sep: string, digits: string)
    requires Compact(sep) == []
    requires AllDigits(digits)
    ensures Compact(p + sep + digits) == Compact(p) + digits
  {
    CompactAppend(p + sep, digits);
    CompactAppend(p, sep);
    CompactDigits(digits);
  }

  /** The space and the digit field after it, compacted. */
  lemma CompactSpace(p: string, digits: string)
    requires AllDigits(digits)
    ensures Compact(p + " " + digits) == Compact(p) + "_" + digits
  {
    CompactAppend(p + " ", digits);
    CompactAppend(p, " ");
    CompactDigits(digits);
    assert " "[1..] == [];
    assert Compact(" ") == "_";
  }

  /** Two readings of the clock give the same file name exactly when they fall in the same
      second: a second new code within one second overwrites the first one's file. */
  lemma ArchiveNameCollision(a: Instant, b: Instant)
    ensures ArchiveName(a) == ArchiveName(b) <==> SameSecond(a, b)
  {
    if ArchiveName(a) == ArchiveName(b) {
      var ya, ma, da, ha, ia, sa := Pad4(a.year), Pad2(a.month), Pad2(a.day),
                                    Pad2(a.hour), Pad2(a.minute), Pad2(a.second);
      var yb, mb, db, hb, ib, sb := Pad4(b.year), Pad2(b.month), Pad2(b.day),
                                    Pad2(b.hour), Pad2(b.minute), Pad2(b.second);
      AppendCancel(ya + ma + da + "_" + ha + ia + sa, ".jpg", yb + mb + db + "_" + hb + ib + sb, ".jpg");
      AppendCancel(ya + ma + da + "_" + ha + ia, sa, yb + mb + db + "_" + hb + ib, sb);
      AppendCancel(ya + ma + da + "_" + ha, ia, yb + mb + db + "_" + hb, ib);
      AppendCancel(ya + ma + da + "_", ha, yb + mb + db + "_", hb);
      AppendCancel(ya + ma + da, "_", yb + mb + db, "_");
      AppendCancel(ya + ma, da, yb + mb, db);
      AppendCancel(ya, ma, yb, mb);
      Pad4Injective(a.year, b.year);
      Pad2Injective(a.month, b.month);
      Pad2Injective(a.day, b.day);
      Pad2Injective(a.hour, b.hour);
      Pad2Injective(a.minute, b.minute);
      Pad2Injective(a.second, b.second);
    }
  }

  /** Likewise, two readings give the same first_seen text exactly when they share a second. */
  lemma DbTimestampCollision(a: Instant, b: Instant)
    ensures DbTimestamp(a) == DbTimestamp(b) <==> SameSecond(a, b)
  {
    if DbTimestamp(a) == DbTimestamp(b) {
      var ya, ma, da, ha, ia, sa := Pad4(a.year), Pad2(a.month), Pad2(a.day),
                                    Pad2(a.hour), Pad2(a.minute), Pad2(a.second);
      var yb, mb, db, hb, ib, sb := Pad4(b.year), Pad2(b.month), Pad2(b.day),
                                    Pad2(b.hour), Pad2(b.minute), Pad2(b.second);
      AppendCancel(ya + "-" + ma + "-" + da + " " + ha + ":" + ia + ":", sa,
                   yb + "-" + mb + "-" + db + " " + hb + ":" + ib + ":", sb);
      AppendCancel(ya + "-" + ma + "-" + da + " " + ha + ":" + ia, ":",
                   yb + "-" + mb + "-" + db + " " + hb + ":" + ib, ":");
      AppendCancel(ya + "-" + ma + "-" + da + " " + ha + ":", ia,
                   yb + "-" + mb + "-" + db + " " + hb + ":", ib);
      AppendCancel(ya + "-" + ma + "-" + da + " " + ha, ":", yb + "-" + mb + "-" + db + " " + hb, ":");
      AppendCancel(ya + "-" + ma + "-" + da + " ", ha, yb + "-" + mb + "-" + db + " ", hb);
      AppendCancel(ya + "-" + ma + "-" + da, " ", yb + "-" + mb + "-" + db, " ");
      AppendCancel(ya + "-" + ma + "-", da, yb + "-" + mb + "-", db);
      AppendCancel(ya + "-" + ma, "-", yb + "-" + mb, "-");
      AppendCancel(ya + "-", ma, yb + "-", mb);
      AppendCancel(ya, "-", yb, "-");
      Pad4Injective(a.year, b.year);
      Pad2Injective(a.month, b.month);
      Pad2Injective(a.day, b.day);
      Pad2Injective(a.hour, b.hour);
      Pad2Injective(a.minute, b.minute);
      Pad2Injective(a.second, b.second);
    }
  }
}

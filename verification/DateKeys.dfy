/** `YYYY-MM-DD` keys: how a date is written, read and ordered as text. */
module DateKeys {
  import opened Text
  import opened Calendar

  /** A year, a month and a day as their three padded fields. */
  function KeyText(date: Date): string
    requires Valid(date) && date.year >= 0
  {
    Padded(date.year, 4) + "-" + Padded(date.month, 2) + "-" + Padded(date.day, 2)
  }

  /** The dates whose key is well formed: four year digits. */
  predicate FourDigit(date: Date) {
    Valid(date) && 0 <= date.year <= 9999
  }

  lemma FieldWidths(date: Date)
    requires FourDigit(date)
    ensures |Padded(date.year, 4)| == 4 && Value(Padded(date.year, 4)) == date.year
    ensures |Padded(date.month, 2)| == 2 && Value(Padded(date.month, 2)) == date.month
    ensures |Padded(date.day, 2)| == 2 && Value(Padded(date.day, 2)) == date.day
  {
    hide Padded, Value, MonthLength;
    PaddedReads(date.year, 4);
    PaddedReads(date.month, 2);
    PaddedReads(date.day, 2);
    SmallPowers();
  }

  lemma SmallPowers()
    ensures Pow10(2) == 100 && Pow10(4) == 10000
  {
    assert Pow10(1) == 10 && Pow10(3) == 1000;
  }

  lemma FieldOrder(a: nat, b: nat, width: nat)
    requires width >= 1 && a < Pow10(width) && b < Pow10(width)
    ensures |Padded(a, width)| == width == |Padded(b, width)|
    ensures Less(Padded(a, width), Padded(b, width)) <==> a < b
    ensures Padded(a, width) == Padded(b, width) <==> a == b
  {
    hide Padded, Value, Less;
    PaddedReads(a, width);
    PaddedReads(b, width);
    NumeralOrder(Padded(a, width), Padded(b, width));
  }

  /** Two fields after equally long heads compare head first. */
  lemma FieldsOrder(a1: string, a2: string, b1: string, b2: string)
    requires |a1| == |b1|
    ensures Less(a1 + "-" + a2, b1 + "-" + b2) <==> Less(a1, b1) || (a1 == b1 && Less(a2, b2))
  {
    assert a1 + "-" + a2 == a1 + ("-" + a2) && b1 + "-" + b2 == b1 + ("-" + b2);
    LessByParts(a1, "-" + a2, b1, "-" + b2);
    LessSamePrefix("-", a2, b2);
  }

  /** String order on keys is chronological order. */
  lemma KeyOrder(a: Date, b: Date)
    requires FourDigit(a) && FourDigit(b)
    ensures Less(KeyText(a), KeyText(b)) <==> DaysOf(a) < DaysOf(b)
    ensures KeyText(a) == KeyText(b) <==> a == b
    ensures AtMost(KeyText(a), KeyText(b)) <==> DaysOf(a) <= DaysOf(b)
  {
    hide Padded, MonthLength, Less, DaysOf;
    SmallPowers();
    FieldOrder(a.year, b.year, 4);
    FieldOrder(a.month, b.month, 2);
    FieldOrder(a.day, b.day, 2);
    var ya, yb := Padded(a.year, 4), Padded(b.year, 4);
    var ma, mb := Padded(a.month, 2), Padded(b.month, 2);
    var da, db := Padded(a.day, 2), Padded(b.day, 2);
    FieldsOrder(ya + "-" + ma, da, yb + "-" + mb, db);
    FieldsOrder(ya, ma, yb, mb);
    KeyFields(ya, ma, da, yb, mb, db);
    DaysOfOrder(a, b);
  }

  lemma KeyFields(ya: string, ma: string, da: string, yb: string, mb: string, db: string)
    requires |ya| == |yb| && |ma| == |mb|
    ensures ya + "-" + ma == yb + "-" + mb <==> ya == yb && ma == mb
    ensures ya + "-" + ma + "-" + da == yb + "-" + mb + "-" + db <==> ya == yb && ma == mb && da == db
  {
    var a, b := ya + "-" + ma, yb + "-" + mb;
    assert a[..|ya|] == ya && a[|ya| + 1..] == ma;
    assert b[..|yb|] == yb && b[|yb| + 1..] == mb;
    var fa, fb := a + "-" + da, b + "-" + db;
    assert fa[..|a|] == a && fa[|a| + 1..] == da;
    assert fb[..|b|] == b && fb[|b| + 1..] == db;
  }

  /** The fields of a key, as `split("-")` gives them. */
  lemma SplitKey(date: Date)
    requires FourDigit(date)
    ensures Split(KeyText(date), '-') == [Padded(date.year, 4), Padded(date.month, 2), Padded(date.day, 2)]
  {
    SplitFields(Padded(date.year, 4), Padded(date.month, 2), Padded(date.day, 2), '-');
  }

  lemma SplitFields(a: string, b: string, c: string, sep: char)
    requires AllDigits(a) && AllDigits(b) && AllDigits(c) && !IsDigit(sep)
    ensures Split(a + [sep] + b + [sep] + c, sep) == [a, b, c]
  {
    assert a + [sep] + b + [sep] + c == a + [sep] + (b + [sep] + c);
    SplitPrefix(a, b + [sep] + c, sep);
    SplitPrefix(b, c, sep);
    SplitWhole(c, sep);
  }
}

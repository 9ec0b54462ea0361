/**
 String helpers shared by the models: the JavaScript string operations the
 repository leans on (`trim`, `split`, `join`, `replaceAll`, code-unit order,
 `padStart`) and decimal numerals.
 */
module Text {

  datatype Option<+T> = None | Some(value: T)

  // ---------------------------------------------------------------- blanks

  /** The characters `String.prototype.trim` strips. */
  predicate IsBlank(c: char) {
    || '\t' <= c <= '\r'
    || c == ' '
    || c == '\U{A0}'
    || c == '\U{1680}'
    || '\U{2000}' <= c <= '\U{200A}'
    || c == '\U{2028}'
    || c == '\U{2029}'
    || c == '\U{202F}'
    || c == '\U{205F}'
    || c == '\U{3000}'
    || c == '\U{FEFF}'
  }

  predicate AllBlank(s: string) {
    forall c | c in s :: IsBlank(c)
  }

  function TrimStart(s: string): string {
    if s != "" && IsBlank(s[0]) then TrimStart(s[1..]) else s
  }

  function TrimEnd(s: string): string {
    if s != "" && IsBlank(s[|s| - 1]) then TrimEnd(s[..|s| - 1]) else s
  }

  function Trim(s: string): string {
    TrimEnd(TrimStart(s))
  }

  lemma {:induction false} TrimStartDropsBlanks(s: string)
    ensures TrimStart(s) == "" <==> AllBlank(s)
  {
    if s != "" && IsBlank(s[0]) {
      TrimStartDropsBlanks(s[1..]);
      assert forall c :: c in s <==> c == s[0] || c in s[1..];
    }
  }

  lemma {:induction false} TrimEndKeepsFirst(s: string)
    requires s != "" && !IsBlank(s[0])
    ensures TrimEnd(s) != ""
  {
    if IsBlank(s[|s| - 1]) {
      TrimEndKeepsFirst(s[..|s| - 1]);
    }
  }

  lemma {:induction false} TrimStartHead(s: string)
    ensures TrimStart(s) == "" || !IsBlank(TrimStart(s)[0])
  {
    if s != "" && IsBlank(s[0]) {
      TrimStartHead(s[1..]);
    }
  }

  /** `value.trim() !== ""` says exactly that some character is not blank. */
  lemma TrimEmpty(s: string)
    ensures Trim(s) == "" <==> AllBlank(s)
  {
    TrimStartDropsBlanks(s);
    TrimStartHead(s);
    if TrimStart(s) != "" {
      TrimEndKeepsFirst(TrimStart(s));
    }
  }

  /** Text that starts and ends with a visible character is its own trim. */
  lemma TrimIdentity(s: string)
    requires s == "" || (!IsBlank(s[0]) && !IsBlank(s[|s| - 1]))
    ensures Trim(s) == s
  {
  }

  // ---------------------------------------------------------- split and join

  /** `s.split(sep)` for a one-character separator. */
  function Split(s: string, sep: char): (parts: seq<string>)
    ensures |parts| >= 1
  {
    if s == "" then [""]
    else
      var rest := Split(s[1..], sep);
      if s[0] == sep then [""] + rest else [[s[0]] + rest[0]] + rest[1..]
  }

  /** `parts.join(sep)`. */
  function Join(parts: seq<string>, sep: string): string {
    if |parts| == 0 then ""
    else if |parts| == 1 then parts[0]
    else parts[0] + sep + Join(parts[1..], sep)
  }

  lemma {:induction false} SplitPrefix(head: string, rest: string, sep: char)
    requires sep !in head
    ensures Split(head + [sep] + rest, sep) == [head] + Split(rest, sep)
  {
    if head == "" {
      assert head + [sep] + rest == [sep] + rest;
    } else {
      assert (head + [sep] + rest)[1..] == head[1..] + [sep] + rest;
      assert head[0] in head;
      SplitPrefix(head[1..], rest, sep);
      assert [head[0]] + head[1..] == head;
    }
  }

  lemma {:induction false} SplitWhole(s: string, sep: char)
    requires sep !in s
    ensures Split(s, sep) == [s]
  {
    if s != "" {
      assert s[0] in s;
      SplitWhole(s[1..], sep);
      assert [s[0]] + s[1..] == s;
    }
  }

  /** Joining the parts of a text gives the text back. */
  lemma {:induction false} JoinSplit(s: string, sep: char)
    ensures Join(Split(s, sep), [sep]) == s
  {
    if s != "" {
      JoinSplit(s[1..], sep);
      var rest := Split(s[1..], sep);
      if s[0] == sep {
        assert ([""] + rest)[1..] == rest;
        assert s == [sep] + s[1..];
      } else {
        assert ([[s[0]] + rest[0]] + rest[1..])[1..] == rest[1..];
        assert s == [s[0]] + s[1..];
      }
    }
  }

  /** Splitting what was joined gives the parts back, if none holds the separator. */
  lemma {:induction false} SplitJoin(parts: seq<string>, sep: char)
    requires |parts| >= 1
    requires forall p | p in parts :: sep !in p
    ensures Split(Join(parts, [sep]), sep) == parts
  {
    hide Split;
    assert parts[0] in parts;
    if |parts| == 1 {
      SplitWhole(parts[0], sep);
    } else {
      var rest := Join(parts[1..], [sep]);
      assert Join(parts, [sep]) == parts[0] + [sep] + rest;
      hide Join;
      SplitPrefix(parts[0], rest, sep);
      assert forall p | p in parts[1..] :: p in parts;
      SplitJoin(parts[1..], sep);
    }
  }

  // ------------------------------------------------------------- replaceAll

  /** `s.replaceAll(pattern, replacement)` for a literal pattern. */
  function ReplaceAll(s: string, pattern: string, replacement: string): string
    requires pattern != ""
  {
    if s == "" then ""
    else if pattern <= s then replacement + ReplaceAll(s[|pattern|..], pattern, replacement)
    else [s[0]] + ReplaceAll(s[1..], pattern, replacement)
  }

  // ------------------------------------------------------------ string order

  /** `a < b` on strings: code-unit order. */
  predicate Less(a: string, b: string) {
    b != "" && (a == "" || a[0] < b[0] || (a[0] == b[0] && Less(a[1..], b[1..])))
  }

  /** `a <= b` on strings. */
  predicate AtMost(a: string, b: string) {
    a == b || Less(a, b)
  }

  lemma {:induction false} LessTotal(a: string, b: string)
    ensures AtMost(a, b) || AtMost(b, a)
    ensures AtMost(a, b) && AtMost(b, a) ==> a == b
  {
    if a != "" && b != "" && a[0] == b[0] {
      LessTotal(a[1..], b[1..]);
      assert a == [a[0]] + a[1..] && b == [b[0]] + b[1..];
    }
  }

  lemma {:induction false} LessTransitive(a: string, b: string, c: string)
    requires Less(a, b) && Less(b, c)
    ensures Less(a, c)
  {
    if a != "" && a[0] == b[0] == c[0] {
      LessTransitive(a[1..], b[1..], c[1..]);
    }
  }

  lemma {:induction false} LessSamePrefix(p: string, a: string, b: string)
    ensures Less(p + a, p + b) == Less(a, b)
  {
    if p == "" {
      assert p + a == a && p + b == b;
    } else {
      assert (p + a)[1..] == p[1..] + a && (p + b)[1..] == p[1..] + b;
      LessSamePrefix(p[1..], a, b);
    }
  }

  /** Keys of one length are ordered first by their heads, then by their tails. */
  lemma {:induction false} LessByParts(a1: string, a2: string, b1: string, b2: string)
    requires |a1| == |b1|
    ensures Less(a1 + a2, b1 + b2) <==> Less(a1, b1) || (a1 == b1 && Less(a2, b2))
  {
    if a1 == "" {
      assert a1 + a2 == a2 && b1 + b2 == b2;
    } else {
      assert (a1 + a2)[1..] == a1[1..] + a2 && (b1 + b2)[1..] == b1[1..] + b2;
      LessByParts(a1[1..], a2, b1[1..], b2);
      assert a1 == [a1[0]] + a1[1..] && b1 == [b1[0]] + b1[1..];
    }
  }

  // ------------------------------------------------------- decimal numerals

  predicate IsDigit(c: char) {
    '0' <= c <= '9'
  }

  predicate AllDigits(s: string) {
    forall c | c in s :: IsDigit(c)
  }

  function DigitChar(d: nat): (c: char)
    requires d < 10
    ensures IsDigit(c)
  {
    (48 + d) as char
  }

  function DigitValue(c: char): nat
    requires IsDigit(c)
  {
    c as int - 48
  }

  /** `String(n)`. */
  function Dec(n: nat): (s: string)
    ensures s != "" && AllDigits(s)
  {
    if n < 10 then [DigitChar(n)] else Dec(n / 10) + [DigitChar(n % 10)]
  }

  /** `Number(s)` on a run of digits. */
  function Value(s: string): nat
    requires AllDigits(s)
  {
    if s == "" then 0 else 10 * Value(s[..|s| - 1]) + DigitValue(s[|s| - 1])
  }

  lemma {:induction false} ValueDec(n: nat)
    ensures Value(Dec(n)) == n
  {
    if n >= 10 {
      ValueDec(n / 10);
      assert Dec(n)[..|Dec(n)| - 1] == Dec(n / 10);
    }
  }

  /** `String(n).padStart(width, "0")`. */
  function Padded(n: nat, width: nat): (s: string)
    ensures AllDigits(s)
  {
    var s := Dec(n);
    Zeros(width - |s|) + s
  }

  function Zeros(count: int): (s: string)
    ensures AllDigits(s)
    ensures |s| == if count < 0 then 0 else count
  {
    if count <= 0 then "" else "0" + Zeros(count - 1)
  }

  function Pow10(width: nat): (p: nat)
    ensures p >= 1
  {
    if width == 0 then 1 else 10 * Pow10(width - 1)
  }

  /** A numeral of `n` has at most `width` digits exactly when `n < 10^width`. */
  lemma {:induction false} DecLength(n: nat, width: nat)
    requires width >= 1
    ensures |Dec(n)| <= width <==> n < Pow10(width)
    decreases n
  {
    if n >= 10 {
      if width == 1 {
        assert Pow10(1) == 10 * Pow10(0);
      } else {
        DecLength(n / 10, width - 1);
      }
    } else {
      assert Pow10(width) == 10 * Pow10(width - 1);
    }
  }

  lemma {:induction false} ValueZeros(count: int, s: string)
    requires AllDigits(s)
    ensures AllDigits(Zeros(count) + s) && Value(Zeros(count) + s) == Value(s)
    decreases |s|, count
  {
    if s == "" {
      assert Zeros(count) + s == Zeros(count);
      ValueOfZeros(count);
    } else {
      var t := Zeros(count) + s;
      assert t[..|t| - 1] == Zeros(count) + s[..|s| - 1];
      ValueZeros(count, s[..|s| - 1]);
    }
  }

  lemma {:induction false} ValueOfZeros(count: int)
    ensures Value(Zeros(count)) == 0
  {
    if count > 0 {
      ZerosShift(count);
      ValueOfZeros(count - 1);
      assert Zeros(count)[..count - 1] == Zeros(count - 1);
    }
  }

  lemma {:induction false} ZerosShift(count: int)
    requires count > 0
    ensures Zeros(count) == Zeros(count - 1) + "0"
  {
    if count > 1 {
      ZerosShift(count - 1);
    }
  }

  /** A padded numeral that fits has exactly the width, and reads back. */
  lemma PaddedReads(n: nat, width: nat)
    requires width >= 1
    ensures Value(Padded(n, width)) == n
    ensures |Padded(n, width)| == width <==> n < Pow10(width)
    ensures n >= Pow10(width) ==> Padded(n, width) == Dec(n)
  {
    hide Dec, Value, Zeros, Pow10;
    ValueDec(n);
    DecLength(n, width);
    ValueZeros(width - |Dec(n)|, Dec(n));
    if n >= Pow10(width) {
      assert Zeros(width - |Dec(n)|) + Dec(n) == Dec(n);
    }
  }

  lemma {:induction false} ValueBelow(s: string)
    requires AllDigits(s)
    ensures Value(s) < Pow10(|s|)
  {
    if s != "" {
      ValueBelow(s[..|s| - 1]);
      assert s[|s| - 1] in s;
    }
  }

  /** Of numerals of one width, code-unit order is numeric order. */
  lemma {:induction false} NumeralOrder(a: string, b: string)
    requires AllDigits(a) && AllDigits(b) && |a| == |b|
    ensures Less(a, b) <==> Value(a) < Value(b)
    ensures a == b <==> Value(a) == Value(b)
  {
    if a != "" {
      var n := |a| - 1;
      assert a[n] in a && b[n] in b;
      NumeralOrder(a[..n], b[..n]);
      LessByParts(a[..n], a[n..], b[..n], b[n..]);
      assert a == a[..n] + a[n..] && b == b[..n] + b[n..];
      assert a[n..] == [a[n]] && b[n..] == [b[n]];
      assert Less(a[n..], b[n..]) <==> a[n] < b[n];
    }
  }

  // ------------------------------------------------------------- what trim is

  lemma {:induction false} TrimStartIs(s: string) returns (before: string)
    ensures AllBlank(before) && s == before + TrimStart(s)
    ensures TrimStart(s) != "" ==> !IsBlank(TrimStart(s)[0])
  {
    if s != "" && IsBlank(s[0]) {
      var rest := TrimStartIs(s[1..]);
      before := [s[0]] + rest;
      assert s == [s[0]] + s[1..];
    } else {
      before := "";
    }
  }

  lemma {:induction false} TrimEndIs(s: string) returns (after: string)
    ensures AllBlank(after) && s == TrimEnd(s) + after
    ensures TrimEnd(s) != "" ==> !IsBlank(TrimEnd(s)[|TrimEnd(s)| - 1]) && TrimEnd(s)[0] == s[0]
  {
    if s != "" && IsBlank(s[|s| - 1]) {
      var rest := TrimEndIs(s[..|s| - 1]);
      after := rest + [s[|s| - 1]];
      assert s == s[..|s| - 1] + [s[|s| - 1]];
    } else {
      after := "";
      assert s == s + after;
    }
  }

  /** Trimming takes blanks off both ends, and nothing else. */
  lemma TrimIs(s: string) returns (before: string, after: string)
    ensures AllBlank(before) && AllBlank(after) && s == before + Trim(s) + after
    ensures Trim(s) != "" ==> !IsBlank(Trim(s)[0]) && !IsBlank(Trim(s)[|Trim(s)| - 1])
  {
    before := TrimStartIs(s);
    after := TrimEndIs(TrimStart(s));
    assert before + (Trim(s) + after) == before + Trim(s) + after;
  }

  lemma {:induction false} TrimStartPast(before: string, s: string)
    requires AllBlank(before) && (s == "" || !IsBlank(s[0]))
    ensures TrimStart(before + s) == s
  {
    if before == "" {
      assert before + s == s;
    } else {
      assert before[0] in before && forall c | c in before[1..] :: c in before;
      assert (before + s)[1..] == before[1..] + s;
      TrimStartPast(before[1..], s);
    }
  }

  lemma {:induction false} TrimEndPast(s: string, after: string)
    requires AllBlank(after) && (s == "" || !IsBlank(s[|s| - 1]))
    ensures TrimEnd(s + after) == s
  {
    if after == "" {
      assert s + after == s;
    } else {
      var n := |after| - 1;
      assert after[n] in after && forall c | c in after[..n] :: c in after;
      assert (s + after)[..|s + after| - 1] == s + after[..n];
      TrimEndPast(s, after[..n]);
    }
  }

  /** Trimming a text between blanks gives the text. */
  lemma TrimBetween(before: string, s: string, after: string)
    requires AllBlank(before) && AllBlank(after)
    requires s == "" || (!IsBlank(s[0]) && !IsBlank(s[|s| - 1]))
    ensures Trim(before + s + after) == s
  {
    if s == "" {
      TrimEmpty(before + s + after);
    } else {
      assert before + s + after == before + (s + after);
      TrimStartPast(before, s + after);
      TrimEndPast(s, after);
    }
  }
}

/** Ordering decimal strings by their digits, and the holdings table sorted that way. */
module DecimalOrder {
  import opened Sequences
  import opened Digits
  import opened Decimals

  // The decimal text.

  /** An optional minus, digits without a leading zero, and an optional point with at least one digit. */
  predicate Unsigned(whole: string, fraction: string) {
    && AllDigits(whole) && AllDigits(fraction)
    && whole != "" && (whole[0] == '0' ==> |whole| == 1)
  }

  function PointAt(s: string): (i: nat)
    ensures i <= |s| && (i < |s| ==> s[i] == '.')
    ensures forall k :: 0 <= k < i ==> s[k] != '.'
  {
    if s == "" || s[0] == '.' then 0 else 1 + PointAt(s[1..])
  }

  datatype Parts = Parts(negative: bool, whole: string, fraction: string)

  /** The text split as written; nothing when it is not a decimal. */
  function Split(value: string): (r: Option<Parts>)
    ensures r.Some? ==> Unsigned(r.value.whole, r.value.fraction)
  {
    var negative := value != "" && value[0] == '-';
    var text := if negative then value[1..] else value;
    var point := PointAt(text);
    var whole, fraction := text[..point], if point < |text| then text[point + 1..] else "";
    if Unsigned(whole, fraction) && (point < |text| ==> fraction != "") then Some(Parts(negative, whole, fraction))
    else None
  }

  function Behind(fraction: string): string {
    if fraction == "" then "" else "." + fraction
  }

  function Join(p: Parts): string {
    (if p.negative then "-" else "") + (p.whole + Behind(p.fraction))
  }

  /** The parts are those of the text, and put together again give it. */
  lemma SplitJoins(value: string)
    requires Split(value).Some?
    ensures Join(Split(value).value) == value
  {
    var parts := Split(value).value;
    CutAtPoint(if parts.negative then value[1..] else value);
  }

  lemma CutAtPoint(text: string)
    ensures PointAt(text) == |text| ==> text == text[..PointAt(text)]
    ensures PointAt(text) < |text| ==> text == text[..PointAt(text)] + ("." + text[PointAt(text) + 1..])
  {
  }

  lemma PointBehind(whole: string, fraction: string)
    requires AllDigits(whole)
    ensures PointAt(whole + Behind(fraction)) == |whole|
  {
    var text := whole + Behind(fraction);
    assert forall k :: 0 <= k < |whole| ==> text[k] == whole[k];
    assert fraction != "" ==> text[|whole|] == '.';
  }

  lemma PartsBehind(whole: string, fraction: string)
    requires whole != "" && AllDigits(whole)
    ensures var text := whole + Behind(fraction);
      && text != "" && text[0] != '-' && text[..|whole|] == whole
      && (if fraction == "" then |text| == |whole| else |whole| < |text| && text[|whole| + 1..] == fraction)
  {
    var text := whole + Behind(fraction);
    assert text[0] == whole[0];
  }

  /** Every text put together from well-formed parts is read as just these parts; with SplitJoins, no other is read. */
  lemma JoinSplits(p: Parts)
    requires Unsigned(p.whole, p.fraction)
    ensures Split(Join(p)) == Some(p)
  {
    PointBehind(p.whole, p.fraction);
    PartsBehind(p.whole, p.fraction);
    SignInFront(p.negative, p.whole + Behind(p.fraction));
  }

  lemma SignInFront(negative: bool, text: string)
    requires text != "" && text[0] != '-'
    ensures var s := (if negative then "-" else "") + text;
      s != "" && (s[0] == '-' <==> negative) && (if negative then s[1..] else s) == text
  {
  }

  /** The number the parts denote. */
  function Magnitude(p: Parts): real
    requires Unsigned(p.whole, p.fraction)
  {
    Value(p.whole) as real + Value(p.fraction) as real / Pow10(|p.fraction|) as real
  }

  function Number(p: Parts): real
    requires Unsigned(p.whole, p.fraction)
  {
    if p.negative then -Magnitude(p) else Magnitude(p)
  }

  // The comparator.

  function TrimZeros(s: string): (r: string)
    ensures |r| <= |s| && s[..|r|] == r
    ensures r == "" || r[|r| - 1] != '0'
    ensures forall i :: |r| <= i < |s| ==> s[i] == '0'
  {
    if s == "" || s[|s| - 1] != '0' then s else TrimZeros(s[..|s| - 1])
  }

  /** Trailing zeros dropped, and zero never negative. */
  function Canonical(value: string): (r: Option<Parts>)
    ensures r.Some? <==> Split(value).Some?
    ensures r.Some? ==> Unsigned(r.value.whole, r.value.fraction)
  {
    var parts := Split(value);
    if parts.None? then None
    else
      var fraction := TrimZeros(parts.value.fraction);
      Some(Parts(parts.value.negative && (parts.value.whole != "0" || |fraction| > 0), parts.value.whole, fraction))
  }

  function PadEnd(s: string, n: nat): (r: string)
    ensures |s| <= n ==> |r| == n
    ensures AllDigits(s) ==> AllDigits(r)
    decreases n - |s|
  {
    if |s| >= n then s else PadEnd(s + "0", n)
  }

  /** Comparison of two strings, as a sign. */
  function Locale(a: string, b: string): int {
    if LexLess(a, b) then -1 else if a == b then 0 else 1
  }

  function MagnitudeSign(a: Parts, b: Parts): int {
    var whole := if |a.whole| == |b.whole| then Locale(a.whole, b.whole) else |a.whole| - |b.whole|;
    var scale := if |a.fraction| < |b.fraction| then |b.fraction| else |a.fraction|;
    if whole != 0 then whole else Locale(PadEnd(a.fraction, scale), PadEnd(b.fraction, scale))
  }

  datatype Direction = Ascending | Descending

  function Directed(direction: Direction, result: int): int {
    if direction == Ascending then result else -result
  }

  function Compare(direction: Direction, left: Option<string>, right: Option<string>): int {
    if left.None? && right.None? then 0
    else if left.None? then 1
    else if right.None? then -1
    else
      var a, b := Canonical(left.value), Canonical(right.value);
      if a.None? || b.None? then
        (if direction == Ascending then Locale(left.value, right.value) else Locale(right.value, left.value))
      else if a.value.negative != b.value.negative then Directed(direction, if a.value.negative then -1 else 1)
      else
        var magnitude := MagnitudeSign(a.value, b.value);
        Directed(direction, if a.value.negative then -magnitude else magnitude)
  }

  // The comparator has the sign of the exact difference.

  lemma {:induction false} AppendZero(s: string)
    requires AllDigits(s)
    ensures AllDigits(s + "0") && Value(s + "0") == 10 * Value(s)
  {
    ValueConcat(s, "0");
    assert Value("0") == 0 by {
      assert "0"[1..] == "";
    }
    assert Pow10(1) == 10;
  }

  /** A fraction is the same number with zeros added behind it. */
  function Fraction(s: string): real
    requires AllDigits(s)
  {
    Value(s) as real / Pow10(|s|) as real
  }

  lemma AppendZeroFraction(s: string)
    requires AllDigits(s)
    ensures AllDigits(s + "0") && Fraction(s + "0") == Fraction(s)
  {
    AppendZero(s);
    TenthOfTens(Value(s) as real, Pow10(|s|) as real);
    assert Pow10(|s| + 1) == 10 * Pow10(|s|);
  }

  lemma {:induction false} PadFraction(s: string, n: nat)
    requires AllDigits(s)
    ensures Fraction(PadEnd(s, n)) == Fraction(s)
    decreases n - |s|
  {
    if |s| < n {
      AppendZeroFraction(s);
      PadFraction(s + "0", n);
    }
  }

  lemma {:induction false} TrimFraction(s: string)
    requires AllDigits(s)
    ensures AllDigits(TrimZeros(s)) && Fraction(TrimZeros(s)) == Fraction(s)
  {
    if s != "" && s[|s| - 1] == '0' {
      TrimFraction(s[..|s| - 1]);
      AppendZeroFraction(s[..|s| - 1]);
      assert s == s[..|s| - 1] + "0";
    }
  }

  lemma FractionBelowOne(s: string)
    requires AllDigits(s)
    ensures 0.0 <= Fraction(s) < 1.0
  {
    ValueBound(s);
    ProperQuotient(Value(s) as real, Pow10(|s|) as real);
  }

  lemma ProperQuotient(v: real, p: real)
    requires 0.0 <= v < p
    ensures 0.0 <= v / p < 1.0
  {
    DivideStrict(v, p, p);
    DivideSelf(p);
    DivideMonotone(0.0, v, p);
  }

  lemma SameLengthFractions(s: string, t: string)
    requires AllDigits(s) && AllDigits(t) && |s| == |t|
    ensures Fraction(s) < Fraction(t) <==> LexLess(s, t)
    ensures Fraction(s) == Fraction(t) <==> s == t
  {
    SameLengthOrder(s, t);
    var p := Pow10(|s|) as real;
    if Value(s) < Value(t) {
      DivideStrict(Value(s) as real, Value(t) as real, p);
    } else if Value(t) < Value(s) {
      DivideStrict(Value(t) as real, Value(s) as real, p);
    }
  }

  lemma DivideStrict(x: real, y: real, p: real)
    requires x < y && p > 0.0
    ensures x / p < y / p
  {
    DivideMonotone(x, y, p);
    assert x / p * p == x && y / p * p == y;
  }

  /** Whole parts: by length, then by digits. */
  lemma WholeOrder(a: string, b: string)
    requires Unsigned(a, "") && Unsigned(b, "")
    ensures var sign := if |a| == |b| then Locale(a, b) else |a| - |b|;
      (sign < 0 <==> Value(a) < Value(b)) && (sign == 0 <==> Value(a) == Value(b))
  {
    if |a| == |b| {
      SameLengthOrder(a, b);
    } else if |a| < |b| {
      LongerIsLarger(a, b);
    } else {
      LongerIsLarger(b, a);
    }
  }

  lemma MagnitudeOrder(a: Parts, b: Parts)
    requires Unsigned(a.whole, a.fraction) && Unsigned(b.whole, b.fraction)
    ensures MagnitudeSign(a, b) < 0 <==> Magnitude(a) < Magnitude(b)
    ensures MagnitudeSign(a, b) == 0 <==> Magnitude(a) == Magnitude(b)
  {
    var scale := if |a.fraction| < |b.fraction| then |b.fraction| else |a.fraction|;
    var ad, bd := PadEnd(a.fraction, scale), PadEnd(b.fraction, scale);
    WholeOrder(a.whole, b.whole);
    PadFraction(a.fraction, scale);
    PadFraction(b.fraction, scale);
    SameLengthFractions(ad, bd);
    FractionBelowOne(a.fraction);
    FractionBelowOne(b.fraction);
    assert Magnitude(a) == Value(a.whole) as real + Fraction(a.fraction);
    assert Magnitude(b) == Value(b.whole) as real + Fraction(b.fraction);
  }

  lemma {:induction false} ValueZero(s: string)
    requires AllDigits(s)
    ensures Value(s) == 0 <==> forall i :: 0 <= i < |s| ==> s[i] == '0'
  {
    if s != "" {
      ValueZero(s[1..]);
      var p := Pow10(|s| - 1);
      assert DigitValue(s[0]) == 0 <==> s[0] == '0';
      if s[0] == '0' {
        assert DigitValue(s[0]) * p == 0;
        assert (forall i :: 0 <= i < |s| ==> s[i] == '0') <==> (forall i :: 0 <= i < |s[1..]| ==> s[1..][i] == '0') by {
          assert forall i :: 0 < i < |s| ==> s[i] == s[1..][i - 1];
        }
      } else {
        assert DigitValue(s[0]) * p >= p;
      }
    }
  }

  /** The canonical form denotes the number written, and is negative exactly when that number is. */
  lemma CanonicalNumber(value: string)
    requires Split(value).Some?
    ensures Number(Canonical(value).value) == Number(Split(value).value)
    ensures Canonical(value).value.negative <==> Number(Split(value).value) < 0.0
  {
    var parts, canonical := Split(value).value, Canonical(value).value;
    TrimFraction(parts.fraction);
    FractionBelowOne(parts.fraction);
    assert Magnitude(canonical) == Magnitude(parts);
    ZeroMagnitude(canonical);
    assert canonical.whole == parts.whole;
  }

  /** A canonical magnitude is zero exactly when it is written "0" with no fraction. */
  lemma ZeroMagnitude(p: Parts)
    requires Unsigned(p.whole, p.fraction) && (p.fraction == "" || p.fraction[|p.fraction| - 1] != '0')
    ensures Magnitude(p) == 0.0 <==> p.whole == "0" && p.fraction == ""
    ensures Magnitude(p) >= 0.0
  {
    FractionBelowOne(p.fraction);
    ValueZero(p.whole);
    ValueZero(p.fraction);
    if Value(p.fraction) > 0 {
      DivideStrict(0.0, Value(p.fraction) as real, Pow10(|p.fraction|) as real);
    }
    assert Value(p.whole) == 0 <==> p.whole == "0";
  }

  /** On well-formed decimals the comparator is the sign of the exact numeric difference, either way round. */
  lemma CompareIsNumeric(direction: Direction, left: string, right: string)
    requires Split(left).Some? && Split(right).Some?
    ensures var difference := Number(Split(left).value) - Number(Split(right).value);
      var result := Compare(direction, Some(left), Some(right));
      && (result < 0 <==> if direction == Ascending then difference < 0.0 else difference > 0.0)
      && (result == 0 <==> difference == 0.0)
  {
    CanonicalNumber(left);
    CanonicalNumber(right);
    MagnitudeOrder(Canonical(left).value, Canonical(right).value);
  }

  // The table.

  datatype Row = Row(id: nat, value: Option<string>)

  predicate Readable(rows: seq<Row>) {
    forall i :: 0 <= i < |rows| && rows[i].value.Some? ==> Split(rows[i].value.value).Some?
  }

  /** a may stand before b: values in the direction asked for, missing values behind all others. */
  predicate InPlace(direction: Direction, a: Option<string>, b: Option<string>)
    requires a.Some? ==> Split(a.value).Some?
    requires b.Some? ==> Split(b.value).Some?
  {
    || b.None?
    || (a.Some? && b.Some? &&
          if direction == Ascending then Number(Split(a.value).value) <= Number(Split(b.value).value)
          else Number(Split(a.value).value) >= Number(Split(b.value).value))
  }

  lemma CompareInPlace(direction: Direction, a: Option<string>, b: Option<string>)
    requires a.Some? ==> Split(a.value).Some?
    requires b.Some? ==> Split(b.value).Some?
    ensures Compare(direction, a, b) <= 0 <==> InPlace(direction, a, b)
    ensures Compare(direction, a, b) == 0 <==> InPlace(direction, a, b) && InPlace(direction, b, a)
  {
    if a.Some? && b.Some? {
      CompareIsNumeric(direction, a.value, b.value);
    }
  }

  function Insert(direction: Direction, x: Row, rows: seq<Row>): seq<Row> {
    if rows == [] || Compare(direction, x.value, rows[0].value) <= 0 then [x] + rows
    else [rows[0]] + Insert(direction, x, rows[1..])
  }

  /** A stable sort by the comparator. */
  function SortHoldings(rows: seq<Row>, direction: Direction): seq<Row> {
    if rows == [] then [] else Insert(direction, rows[0], SortHoldings(rows[1..], direction))
  }

  ghost predicate Ordered(direction: Direction, rows: seq<Row>)
    requires Readable(rows)
  {
    forall i, j :: 0 <= i < j < |rows| ==> InPlace(direction, rows[i].value, rows[j].value)
  }

  lemma {:induction false} InsertPermutes(direction: Direction, x: Row, rows: seq<Row>)
    ensures multiset(Insert(direction, x, rows)) == multiset(rows) + multiset{x}
  {
    if rows != [] {
      assert rows == [rows[0]] + rows[1..];
      InsertPermutes(direction, x, rows[1..]);
    }
  }

  lemma ReadableMembers(rows: seq<Row>, others: seq<Row>)
    requires Readable(rows) && forall x :: x in others ==> x in rows
    ensures Readable(others)
  {
    forall i | 0 <= i < |others| && others[i].value.Some? ensures Split(others[i].value.value).Some? {
      assert others[i] in others;
      var j :| 0 <= j < |rows| && rows[j] == others[i];
    }
  }

  lemma PrependOrdered(direction: Direction, y: Row, rest: seq<Row>)
    requires Readable([y] + rest) && Readable(rest) && Ordered(direction, rest)
    requires y.value.Some? ==> Split(y.value.value).Some?
    requires forall j :: 0 <= j < |rest| ==> InPlace(direction, y.value, rest[j].value)
    ensures Ordered(direction, [y] + rest)
  {
    var all := [y] + rest;
    forall i, j | 0 <= i < j < |all| ensures InPlace(direction, all[i].value, all[j].value) {
      assert all[j] == rest[j - 1];
      assert i > 0 ==> all[i] == rest[i - 1];
    }
  }

  lemma InPlaceTransitive(direction: Direction, a: Option<string>, b: Option<string>, c: Option<string>)
    requires (a.Some? ==> Split(a.value).Some?) && (b.Some? ==> Split(b.value).Some?) && (c.Some? ==> Split(c.value).Some?)
    requires InPlace(direction, a, b) && InPlace(direction, b, c)
    ensures InPlace(direction, a, c)
  {
  }

  lemma {:induction false} InsertOrdered(direction: Direction, x: Row, rows: seq<Row>)
    requires Readable([x] + rows) && Readable(rows) && Ordered(direction, rows)
    ensures Readable(Insert(direction, x, rows)) && Ordered(direction, Insert(direction, x, rows))
    decreases |rows|
  {
    assert ([x] + rows)[0] == x;
    if rows == [] {
      assert [x] + rows == [x];
    } else {
      var y, rest := rows[0], Insert(direction, x, rows[1..]);
      CompareInPlace(direction, x.value, y.value);
      InsertMembers(direction, x, rows);
      ReadableMembers([x] + rows, Insert(direction, x, rows));
      if Compare(direction, x.value, y.value) <= 0 {
        forall j | 0 <= j < |rows| ensures InPlace(direction, x.value, rows[j].value) {
          if j > 0 {
            InPlaceTransitive(direction, x.value, y.value, rows[j].value);
          }
        }
        PrependOrdered(direction, x, rows);
      } else {
        CompareInPlace(direction, y.value, x.value);
        ReadableMembers([x] + rows, [x] + rows[1..]);
        InsertOrdered(direction, x, rows[1..]);
        InsertMembers(direction, x, rows[1..]);
        InPlaceTotal(direction, x.value, y.value);
        forall j | 0 <= j < |rest| ensures InPlace(direction, y.value, rest[j].value) {
          assert rest[j] in rest;
          if rest[j] != x {
            var k :| 0 <= k < |rows[1..]| && rows[1..][k] == rest[j];
            assert rows[k + 1] == rest[j];
          }
        }
        PrependOrdered(direction, y, rest);
      }
    }
  }

  lemma InPlaceTotal(direction: Direction, a: Option<string>, b: Option<string>)
    requires (a.Some? ==> Split(a.value).Some?) && (b.Some? ==> Split(b.value).Some?)
    ensures InPlace(direction, a, b) || InPlace(direction, b, a)
  {
  }

  lemma InsertMembers(direction: Direction, x: Row, rows: seq<Row>)
    ensures forall r :: r in Insert(direction, x, rows) ==> r == x || r in rows
    ensures forall r :: r in Insert(direction, x, rows) ==> r in [x] + rows
  {
    InsertPermutes(direction, x, rows);
    forall r | r in Insert(direction, x, rows) ensures r == x || r in rows {
      assert r in multiset(Insert(direction, x, rows));
    }
  }

  /** The result is a rearrangement, in numeric order of the direction, missing values last either way. */
  lemma {:induction false} SortedHoldings(rows: seq<Row>, direction: Direction)
    requires Readable(rows)
    ensures multiset(SortHoldings(rows, direction)) == multiset(rows)
    ensures Readable(SortHoldings(rows, direction)) && Ordered(direction, SortHoldings(rows, direction))
    decreases |rows|
  {
    if rows != [] {
      ReadableMembers(rows, rows[1..]);
      SortedHoldings(rows[1..], direction);
      var rest := SortHoldings(rows[1..], direction);
      assert rows == [rows[0]] + rows[1..];
      forall x | x in [rows[0]] + rest ensures x in rows {
        assert x == rows[0] || x in multiset(rest);
      }
      ReadableMembers(rows, [rows[0]] + rest);
      InsertPermutes(direction, rows[0], rest);
      InsertOrdered(direction, rows[0], rest);
    }
  }

  function TiedWith(direction: Direction, v: Option<string>): Row -> bool {
    (r: Row) => Compare(direction, r.value, v) == 0
  }

  lemma TiedTransitive(direction: Direction, a: Row, b: Row, v: Option<string>)
    requires Readable([a, b]) && (v.Some? ==> Split(v.value).Some?)
    requires Compare(direction, a.value, v) == 0 && Compare(direction, b.value, v) == 0
    ensures Compare(direction, a.value, b.value) == 0
  {
    assert [a, b][0] == a && [a, b][1] == b;
    CompareInPlace(direction, a.value, v);
    CompareInPlace(direction, b.value, v);
    CompareInPlace(direction, a.value, b.value);
  }

  lemma {:induction false} InsertStable(direction: Direction, x: Row, rows: seq<Row>, v: Option<string>)
    requires Readable([x] + rows) && (v.Some? ==> Split(v.value).Some?)
    ensures Filter(TiedWith(direction, v), Insert(direction, x, rows))
         == (if TiedWith(direction, v)(x) then [x] else []) + Filter(TiedWith(direction, v), rows)
    decreases |rows|
  {
    var tied := TiedWith(direction, v);
    if rows == [] || Compare(direction, x.value, rows[0].value) <= 0 {
      assert ([x] + rows)[1..] == rows;
    } else {
      ReadableMembers([x] + rows, [x] + rows[1..]);
      ReadableMembers([x] + rows, [x, rows[0]]);
      InsertStable(direction, x, rows[1..], v);
      if tied(x) && tied(rows[0]) {
        TiedTransitive(direction, x, rows[0], v);
      }
      assert ([rows[0]] + Insert(direction, x, rows[1..]))[1..] == Insert(direction, x, rows[1..]);
    }
  }

  /** Rows the comparator ties keep their order. */
  lemma {:induction false} SortStable(rows: seq<Row>, direction: Direction, v: Option<string>)
    requires Readable(rows) && (v.Some? ==> Split(v.value).Some?)
    ensures Filter(TiedWith(direction, v), SortHoldings(rows, direction)) == Filter(TiedWith(direction, v), rows)
    decreases |rows|
  {
    if rows != [] {
      ReadableMembers(rows, rows[1..]);
      SortStable(rows[1..], direction, v);
      SortedHoldings(rows[1..], direction);
      var rest := SortHoldings(rows[1..], direction);
      forall x | x in [rows[0]] + rest ensures x in rows {
        assert x == rows[0] || x in multiset(rest);
      }
      ReadableMembers(rows, [rows[0]] + rest);
      InsertStable(direction, rows[0], rest, v);
    }
  }

  // Which columns the comparator orders at all.

  predicate NotAfter(direction: Direction, a: string, b: string) {
    Compare(direction, Some(a), Some(b)) <= 0
  }

  /** On these texts the comparator is reflexive, total and transitive, which is what sorting asks of it. */
  ghost predicate Preorder(direction: Direction, texts: set<string>) {
    && (forall a, b :: a in texts && b in texts ==> NotAfter(direction, a, b) || NotAfter(direction, b, a))
    && (forall a, b, c :: (a in texts && b in texts && c in texts && NotAfter(direction, a, b) && NotAfter(direction, b, c)) ==>
          NotAfter(direction, a, c))
  }

  /** Two decimals and a text that is none. */
  predicate Parted(a: string, x: string, b: string) {
    Split(a).Some? && Split(x).None? && Split(b).Some?
  }

  /** A text that is no decimal lies, as text, between two decimals only when these are in that order as numbers. */
  ghost predicate Separated(texts: set<string>) {
    forall a, x, b :: a in texts && x in texts && b in texts && Parted(a, x, b) && LexLess(a, x) && LexLess(x, b) ==>
      Number(Split(a).value) < Number(Split(b).value)
  }

  /** Decimals compare as numbers; with anything else, text compares as text. */
  lemma NotAfterMeans(direction: Direction, a: string, b: string)
    ensures Split(a).Some? && Split(b).Some? ==>
      (NotAfter(direction, a, b) <==>
        if direction == Ascending then Number(Split(a).value) <= Number(Split(b).value)
        else Number(Split(a).value) >= Number(Split(b).value))
    ensures Split(a).None? || Split(b).None? ==>
      (NotAfter(direction, a, b) <==> a == b || if direction == Ascending then LexLess(a, b) else LexLess(b, a))
  {
    if Split(a).Some? && Split(b).Some? {
      CompareIsNumeric(direction, a, b);
    } else {
      LexTotal(a, b);
    }
  }

  lemma Mirrored(a: string, b: string)
    ensures NotAfter(Descending, a, b) <==> NotAfter(Ascending, b, a)
  {
    NotAfterMeans(Descending, a, b);
    NotAfterMeans(Ascending, b, a);
  }

  lemma LexAtMostTransitive(a: string, b: string, c: string)
    requires (a == b || LexLess(a, b)) && (b == c || LexLess(b, c))
    ensures a == c || LexLess(a, c)
  {
    if LexLess(a, b) && LexLess(b, c) {
      LexTransitive(a, b, c);
    }
  }

  /** At most one of the three is a decimal: all comparisons are of text. */
  lemma TextTriple(a: string, b: string, c: string)
    requires (Split(a).None? && Split(b).None?) || (Split(b).None? && Split(c).None?) || (Split(a).None? && Split(c).None?)
    requires NotAfter(Ascending, a, b) && NotAfter(Ascending, b, c)
    ensures NotAfter(Ascending, a, c)
  {
    NotAfterMeans(Ascending, a, b);
    NotAfterMeans(Ascending, b, c);
    NotAfterMeans(Ascending, a, c);
    assert a == c || Split(a).None? || Split(c).None?;
    LexAtMostTransitive(a, b, c);
  }

  lemma OtherBetween(texts: set<string>, a: string, x: string, c: string)
    requires Separated(texts) && a in texts && x in texts && c in texts && Parted(a, x, c)
    requires NotAfter(Ascending, a, x) && NotAfter(Ascending, x, c)
    ensures NotAfter(Ascending, a, c)
  {
    NotAfterMeans(Ascending, a, x);
    NotAfterMeans(Ascending, x, c);
    NotAfterMeans(Ascending, a, c);
  }

  lemma OtherFirst(texts: set<string>, x: string, b: string, c: string)
    requires Separated(texts) && x in texts && b in texts && c in texts && Parted(b, x, c)
    requires NotAfter(Ascending, x, b) && NotAfter(Ascending, b, c)
    ensures NotAfter(Ascending, x, c)
  {
    NotAfterMeans(Ascending, x, b);
    NotAfterMeans(Ascending, b, c);
    NotAfterMeans(Ascending, x, c);
    LexTotal(x, c);
    assert Parted(c, x, b);
  }

  lemma OtherLast(texts: set<string>, a: string, b: string, x: string)
    requires Separated(texts) && a in texts && b in texts && x in texts && Parted(a, x, b)
    requires NotAfter(Ascending, a, b) && NotAfter(Ascending, b, x)
    ensures NotAfter(Ascending, a, x)
  {
    NotAfterMeans(Ascending, a, b);
    NotAfterMeans(Ascending, b, x);
    NotAfterMeans(Ascending, a, x);
    LexTotal(x, a);
    assert Parted(b, x, a);
  }

  lemma NumberTriple(a: string, b: string, c: string)
    requires Split(a).Some? && Split(b).Some? && Split(c).Some?
    requires NotAfter(Ascending, a, b) && NotAfter(Ascending, b, c)
    ensures NotAfter(Ascending, a, c)
  {
    NotAfterMeans(Ascending, a, b);
    NotAfterMeans(Ascending, b, c);
    NotAfterMeans(Ascending, a, c);
  }

  lemma TripleTransitive(texts: set<string>, a: string, b: string, c: string)
    requires Separated(texts) && a in texts && b in texts && c in texts
    requires NotAfter(Ascending, a, b) && NotAfter(Ascending, b, c)
    ensures NotAfter(Ascending, a, c)
  {
    if Split(a).Some? && Split(b).Some? && Split(c).Some? {
      NumberTriple(a, b, c);
    } else if Split(a).Some? && Split(c).Some? {
      OtherBetween(texts, a, b, c);
    } else if Split(b).Some? && Split(c).Some? {
      OtherFirst(texts, a, b, c);
    } else if Split(a).Some? && Split(b).Some? {
      OtherLast(texts, a, b, c);
    } else {
      TextTriple(a, b, c);
    }
  }

  /** Given the order of a triple the other way round, the comparator contradicts itself. */
  lemma NotSeparated(texts: set<string>, a: string, x: string, b: string)
    requires a in texts && x in texts && b in texts && Split(a).Some? && Split(x).None? && Split(b).Some?
    requires LexLess(a, x) && LexLess(x, b) && Number(Split(a).value) >= Number(Split(b).value)
    ensures !Preorder(Ascending, texts)
  {
    NotAfterMeans(Ascending, x, b);
    NotAfterMeans(Ascending, b, a);
    NotAfterMeans(Ascending, x, a);
    LexTotal(a, x);
    LexIrreflexive(x);
  }

  /** The comparator orders a column, in either direction, if and only if no other text parts its decimals wrongly. */
  lemma PreorderIff(direction: Direction, texts: set<string>)
    ensures Preorder(direction, texts) <==> Separated(texts)
  {
    forall a, b ensures NotAfter(Descending, a, b) <==> NotAfter(Ascending, b, a) {
      Mirrored(a, b);
    }
    assert Preorder(Descending, texts) <==> Preorder(Ascending, texts);
    if Separated(texts) {
      SeparatedOrders(texts);
    } else {
      var a, x, b :| a in texts && x in texts && b in texts && Parted(a, x, b) && LexLess(a, x) && LexLess(x, b)
        && !(Number(Split(a).value) < Number(Split(b).value));
      NotSeparated(texts, a, x, b);
    }
  }

  lemma SeparatedOrders(texts: set<string>)
    requires Separated(texts)
    ensures Preorder(Ascending, texts)
  {
    forall a, b | a in texts && b in texts ensures NotAfter(Ascending, a, b) || NotAfter(Ascending, b, a) {
      NotAfterMeans(Ascending, a, b);
      NotAfterMeans(Ascending, b, a);
      LexTotal(a, b);
    }
    forall a, b, c | a in texts && b in texts && c in texts && NotAfter(Ascending, a, b) && NotAfter(Ascending, b, c)
      ensures NotAfter(Ascending, a, c)
    {
      TripleTransitive(texts, a, b, c);
    }
  }
}

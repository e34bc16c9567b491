/** Invoice numbers: text of the form INV-2025-0007, the next one taken from the last in
    text order. */
module InvoiceNumbers {
  import opened Wrappers

  // ----- Text -----

  function DigitChar(d: nat): char
    requires d < 10
  {
    '0' + d as char
  }

  predicate IsDigit(c: char) { '0' <= c <= '9' }

  function Decimal(n: nat): string {
    if n < 10 then [DigitChar(n)] else Decimal(n / 10) + [DigitChar(n % 10)]
  }

  function PadStart(s: string, width: nat): string {
    if |s| >= width then s else seq(width - |s|, _ => '0') + s
  }

  function Split(s: string, sep: char): (r: seq<string>)
    ensures |r| >= 1
  {
    if s == "" then [""]
    else
      var rest := Split(s[1..], sep);
      if s[0] == sep then [""] + rest else [[s[0]] + rest[0]] + rest[1..]
  }

  // The number the leading digits of a text stand for; none without a leading digit.
  function ParseInt(s: string): Option<nat> {
    if s == "" || !IsDigit(s[0]) then None else Some(Value(s, 0))
  }

  function Value(s: string, acc: nat): nat {
    if s == "" || !IsDigit(s[0]) then acc else Value(s[1..], 10 * acc + (s[0] as int - '0' as int))
  }

  predicate Before(a: string, b: string) {
    b != "" && (a == "" || a[0] < b[0] || (a[0] == b[0] && Before(a[1..], b[1..])))
  }

  // The last text in order among those with a prefix.
  function Latest(all: seq<string>, prefix: string): Option<string> {
    if all == [] then None
    else
      var rest := Latest(all[1..], prefix);
      if !(prefix <= all[0]) then rest
      else if rest.Some? && Before(all[0], rest.value) then rest else Some(all[0])
  }

  // ----- The sequence -----

  const SEQUENCE_LIMIT := 9999

  predicate Year(y: int) { 1000 <= y <= 9999 }

  function Prefix(year: nat): string { "INV-" + Decimal(year) }

  function Number(year: nat, seqNo: nat): string {
    Prefix(year) + "-" + PadStart(Decimal(seqNo), 4)
  }

  // The next number to try, given all numbers issued so far. A last number whose third part does not
  // parse makes the sequence part NaN.
  function Next(issued: seq<string>, year: nat): string {
    var last := Latest(issued, Prefix(year));
    if last.None? then Number(year, 1)
    else
      var parts := Split(last.value, '-');
      if |parts| < 3 || ParseInt(parts[2]).None? then Prefix(year) + "-" + PadStart("NaN", 4)
      else Number(year, ParseInt(parts[2]).value + 1)
  }

  // ----- A number reads back as what it was made from -----

  predicate AllDigits(s: string) {
    forall i :: 0 <= i < |s| ==> IsDigit(s[i])
  }

  lemma {:induction false} DecimalDigits(n: nat)
    ensures AllDigits(Decimal(n)) && |Decimal(n)| >= 1
  {
    if n >= 10 {
      DecimalDigits(n / 10);
    }
  }

  lemma {:induction false} ValueOfJoined(a: string, c: char, acc: nat)
    requires AllDigits(a) && IsDigit(c)
    ensures Value(a + [c], acc) == 10 * Value(a, acc) + (c as int - '0' as int)
  {
    if a == "" {
      assert a + [c] == [c] && [c][1..] == "";
    } else {
      ValueOfJoined(a[1..], c, 10 * acc + (a[0] as int - '0' as int));
      assert (a + [c])[1..] == a[1..] + [c];
    }
  }

  lemma {:induction false} ValueOfDecimal(n: nat)
    ensures Value(Decimal(n), 0) == n
  {
    var zero := 0;
    if n < 10 {
      assert [DigitChar(n)][1..] == "";
      assert Value("", zero + n) == n;
    } else {
      ValueOfDecimal(n / 10);
      DecimalDigits(n / 10);
      ValueOfJoined(Decimal(n / 10), DigitChar(n % 10), zero);
    }
  }

  lemma {:induction false} ValueSkipsZeros(k: nat, s: string)
    ensures Value(seq(k, _ => '0') + s, 0) == Value(s, 0)
  {
    var zeros := seq(k, _ => '0');
    if k == 0 {
      assert zeros + s == s;
    } else {
      assert (zeros + s)[1..] == seq(k - 1, _ => '0') + s;
      ValueSkipsZeros(k - 1, s);
    }
  }

  lemma {:induction false} SplitAt(a: string, sep: char, rest: string)
    requires sep !in a
    ensures Split(a + [sep] + rest, sep) == [a] + Split(rest, sep)
  {
    var s := a + [sep] + rest;
    if a == "" {
      assert s[1..] == rest;
    } else {
      assert s[1..] == a[1..] + [sep] + rest && a[0] in a;
      SplitAt(a[1..], sep, rest);
      assert [a[0]] + a[1..] == a;
    }
  }

  lemma {:induction false} SplitOfOne(a: string, sep: char)
    requires sep !in a
    ensures Split(a, sep) == [a]
  {
    if a != "" {
      SplitOfOne(a[1..], sep);
      assert a[0] in a && [a[0]] + a[1..] == a;
    }
  }

  // The third part of a number parses to its sequence number, however large.
  lemma NumberReadsBack(year: nat, n: nat)
    ensures var parts := Split(Number(year, n), '-'); |parts| == 3 && ParseInt(parts[2]) == Some(n)
  {
    var padded := PadStart(Decimal(n), 4);
    DecimalDigits(year);
    DecimalDigits(n);
    assert AllDigits(padded);
    assert Number(year, n) == "INV" + ['-'] + (Decimal(year) + ['-'] + padded);
    SplitAt("INV", '-', Decimal(year) + ['-'] + padded);
    SplitAt(Decimal(year), '-', padded);
    SplitOfOne(padded, '-');
    ValueOfDecimal(n);
    if |Decimal(n)| < 4 {
      ValueSkipsZeros(4 - |Decimal(n)|, Decimal(n));
    }
  }

  // ----- Text order -----

  lemma {:induction false} OrderIsTransitive(a: string, b: string, c: string)
    requires !Before(a, b) && !Before(b, c)
    ensures !Before(a, c)
  {
    if a != "" && b != "" && c != "" {
      if a[0] == b[0] == c[0] {
        OrderIsTransitive(a[1..], b[1..], c[1..]);
      }
    }
  }

  lemma {:induction false} OrderIsTotal(a: string, b: string)
    ensures Before(a, b) ==> !Before(b, a)
    ensures !Before(a, b) && !Before(b, a) ==> a == b
  {
    if a != "" && b != "" {
      OrderIsTotal(a[1..], b[1..]);
      if a[0] == b[0] {
        assert a == [a[0]] + a[1..] && b == [b[0]] + b[1..];
      }
    }
  }

  lemma {:induction false} CommonPrefix(p: string, a: string, b: string)
    ensures Before(p + a, p + b) <==> Before(a, b)
  {
    if p == "" {
      assert p + a == a && p + b == b;
    } else {
      CommonPrefix(p[1..], a, b);
      assert (p + a)[1..] == p[1..] + a && (p + b)[1..] == p[1..] + b;
    }
  }

  lemma {:induction false} LatestIsLast(all: seq<string>, prefix: string)
    ensures var r := Latest(all, prefix);
            && (r.Some? ==> r.value in all && prefix <= r.value)
            && (forall s :: s in all && prefix <= s ==> r.Some? && !Before(r.value, s))
  {
    if all != [] {
      LatestIsLast(all[1..], prefix);
      var r, rest := Latest(all, prefix), Latest(all[1..], prefix);
      forall s | s in all && prefix <= s
        ensures r.Some? && !Before(r.value, s)
      {
        if s in all[1..] {
          assert !Before(rest.value, s);
        }
        if rest.Some? {
          OrderIsTotal(all[0], rest.value);
          if r == rest {
            OrderIsTotal(s, rest.value);
          } else if s in all[1..] {
            OrderIsTransitive(all[0], rest.value, s);
          }
        }
        OrderIsTotal(all[0], all[0]);
      }
    }
  }

  function FourDigits(n: nat): string
    requires n <= SEQUENCE_LIMIT
  {
    [DigitChar(n / 1000), DigitChar(n / 100 % 10), DigitChar(n / 10 % 10), DigitChar(n % 10)]
  }

  lemma DecimalUpTo4(n: nat)
    requires n <= SEQUENCE_LIMIT
    ensures PadStart(Decimal(n), 4) == FourDigits(n)
    ensures n >= 1000 ==> Decimal(n) == FourDigits(n)
  {
    var a, b, c := n / 10, n / 100, n / 1000;
    assert a / 10 == b && b / 10 == c;
    if n < 10 {
    } else if n < 100 {
      assert Decimal(a) == [DigitChar(a)];
    } else if n < 1000 {
      assert Decimal(b) == [DigitChar(b)];
      assert Decimal(a) == [DigitChar(b), DigitChar(a % 10)];
    } else {
      assert Decimal(c) == [DigitChar(c)];
      assert Decimal(b) == [DigitChar(c), DigitChar(b % 10)];
      assert Decimal(a) == [DigitChar(c), DigitChar(b % 10), DigitChar(a % 10)];
    }
  }

  lemma BeforeUnfolds(a: string, b: string, i: nat)
    requires i < |a| && i < |b|
    ensures Before(a[i..], b[i..]) <==> a[i] < b[i] || (a[i] == b[i] && Before(a[i + 1..], b[i + 1..]))
  {
    assert a[i..][1..] == a[i + 1..] && b[i..][1..] == b[i + 1..];
  }

  lemma FourCharOrder(a: string, b: string)
    requires |a| == |b| == 4
    ensures Before(a, b) <==>
            || a[0] < b[0] || (a[0] == b[0] && a[1] < b[1]) || (a[0] == b[0] && a[1] == b[1] && a[2] < b[2])
            || (a[0] == b[0] && a[1] == b[1] && a[2] == b[2] && a[3] < b[3])
  {
    assert a[0..] == a && b[0..] == b && b[4..] == "";
    BeforeUnfolds(a, b, 0);
    BeforeUnfolds(a, b, 1);
    BeforeUnfolds(a, b, 2);
    BeforeUnfolds(a, b, 3);
  }

  // A number of the first 9999 of a year: INV, the year and the four digits of its place, with dashes between.
  lemma NumbersLookLikeThis(year: nat, n: nat)
    requires Year(year) && n <= SEQUENCE_LIMIT
    ensures Number(year, n) == ['I', 'N', 'V', '-'] + FourDigits(year) + ['-'] + FourDigits(n)
  {
    DecimalUpTo4(year);
    DecimalUpTo4(n);
  }

  lemma FourDigitOrder(m: nat, n: nat)
    requires m <= SEQUENCE_LIMIT && n <= SEQUENCE_LIMIT
    ensures Before(FourDigits(m), FourDigits(n)) <==> m < n
  {
    FourCharOrder(FourDigits(m), FourDigits(n));
    FourDigitsDecide(m, n);
  }

  lemma FourDigitsDecide(m: nat, n: nat)
    ensures m < n <==>
            || m / 1000 < n / 1000
            || (m / 1000 == n / 1000 && m / 100 % 10 < n / 100 % 10)
            || (m / 1000 == n / 1000 && m / 100 % 10 == n / 100 % 10 && m / 10 % 10 < n / 10 % 10)
            || (m / 1000 == n / 1000 && m / 100 % 10 == n / 100 % 10 && m / 10 % 10 == n / 10 % 10 && m % 10 < n % 10)
  {
    var m2, m3, n2, n3 := m / 10, m / 100, n / 10, n / 100;
    assert m3 == m2 / 10 && n3 == n2 / 10 && m / 1000 == m3 / 10 && n / 1000 == n3 / 10;
    assert m == 10 * m2 + m % 10 && m2 == 10 * m3 + m2 % 10 && m3 == 10 * (m3 / 10) + m3 % 10;
    assert n == 10 * n2 + n % 10 && n2 == 10 * n3 + n2 % 10 && n3 == 10 * (n3 / 10) + n3 % 10;
  }

  // Up to 9999 text order is number order.
  lemma TextOrderIsNumberOrder(year: nat, m: nat, n: nat)
    requires m <= SEQUENCE_LIMIT && n <= SEQUENCE_LIMIT
    ensures Before(Number(year, m), Number(year, n)) <==> m < n
  {
    CommonPrefix(Prefix(year) + "-", PadStart(Decimal(m), 4), PadStart(Decimal(n), 4));
    DecimalUpTo4(m);
    DecimalUpTo4(n);
    FourDigitOrder(m, n);
  }

  // And there it ends: the ten thousandth number comes before the one it follows.
  lemma TenThousandComesEarlier(year: nat)
    ensures Before(Number(year, 10000), Number(year, 9999))
  {
    CommonPrefix(Prefix(year) + "-", PadStart(Decimal(10000), 4), PadStart(Decimal(9999), 4));
    DecimalUpTo4(9999);
    DecimalUpTo4(1000);
    assert Decimal(10000) == Decimal(1000) + ['0'];
    assert PadStart(Decimal(10000), 4)[0] == '1';
  }

  // ----- Allocation -----

  // Of this year exactly the numbers 1 to count are issued.
  ghost predicate IssuedUpTo(issued: seq<string>, year: nat, count: nat) {
    && (forall k: nat :: Number(year, k) in issued <==> 1 <= k <= count)
    && (forall s :: s in issued && Prefix(year) <= s ==> exists k: nat :: s == Number(year, k))
  }

  lemma NumbersDiffer(y: nat, m: nat, z: nat, n: nat)
    requires Number(y, m) == Number(z, n) && y == z
    ensures m == n
  {
    NumberReadsBack(y, m);
    NumberReadsBack(z, n);
  }

  lemma PrefixesDiffer(y: nat, z: nat, n: nat)
    requires Year(y) && Year(z) && Prefix(y) <= Number(z, n)
    ensures y == z
  {
    DecimalUpTo4(y);
    DecimalUpTo4(z);
    ValueOfDecimal(y);
    ValueOfDecimal(z);
    assert Prefix(y) == Number(z, n)[..8] == Prefix(z);
    assert Decimal(y) == Prefix(y)[4..] && Decimal(z) == Prefix(z)[4..];
  }

  // The last number of a year in text order is the latest issued, up to 9999.
  lemma LatestIssued(issued: seq<string>, year: nat, count: nat)
    requires IssuedUpTo(issued, year, count) && count <= 10000
    ensures Latest(issued, Prefix(year)) ==
            if count == 0 then None else Some(Number(year, if count == 10000 then 9999 else count))
  {
    LatestIsLast(issued, Prefix(year));
    var r := Latest(issued, Prefix(year));
    if count > 0 {
      var top := if count == 10000 then 9999 else count;
      assert Number(year, top) in issued && Prefix(year) <= Number(year, top);
      var k: nat :| r.value == Number(year, k);
      assert 1 <= k <= count;
      if k == 10000 {
        TenThousandComesEarlier(year);
      } else {
        TextOrderIsNumberOrder(year, k, top);
      }
    } else {
      assert forall k: nat :: Number(year, k) !in issued;
    }
  }

  // The next number follows the latest, and is one not issued yet, if and only if fewer than ten
  // thousand were. The ten-thousand-and-first invoice of a year is offered number 10000 again.
  lemma NextIsFreshExactly(issued: seq<string>, year: nat, count: nat)
    requires IssuedUpTo(issued, year, count) && count <= 10000
    ensures Next(issued, year) == Number(year, if count < 10000 then count + 1 else 10000)
    ensures Next(issued, year) !in issued <==> count < 10000
  {
    LatestIssued(issued, year, count);
    NumberReadsBack(year, if count == 10000 then 9999 else count);
  }

  // After a last number without a third part that starts with a digit, the next has the text of no number.
  lemma UnreadableLastIsFollowedByNaN(issued: seq<string>, year: nat, last: string)
    requires Latest(issued, Prefix(year)) == Some(last)
    requires var parts := Split(last, '-'); |parts| < 3 || parts[2] == "" || !('0' <= parts[2][0] <= '9')
    ensures Next(issued, year) == Prefix(year) + "-0NaN"
  {
  }

  // Issuing a number extends its own year by one and leaves every other year alone.
  lemma IssuingExtends(issued: seq<string>, year: nat, k: nat, other: nat, count: nat)
    requires Year(year) && Year(other) && IssuedUpTo(issued, other, count)
    requires year == other ==> k == count + 1
    ensures IssuedUpTo(issued + [Number(year, k)], other, if year == other then k else count)
  {
    var s, more := Number(year, k), issued + [Number(year, k)];
    forall n: nat
      ensures Number(other, n) in more <==> Number(other, n) in issued || (year == other && n == k)
    {
      if Number(other, n) == s {
        assert Prefix(other) <= Number(other, n);
        PrefixesDiffer(other, year, k);
        NumbersDiffer(other, n, year, k);
      }
    }
    forall t | t in more && Prefix(other) <= t
      ensures exists n: nat :: t == Number(other, n)
    {
      if t == s {
        PrefixesDiffer(other, year, k);
      }
    }
  }

  // A number whose invoice is purged is issued again if and only if it was the year's last; one purged
  // earlier leaves a gap for good. Either way the number offered is not in use.
  lemma PurgedNumberReturnsExactly(issued: seq<string>, rest: seq<string>, year: nat, count: nat, k: nat)
    requires IssuedUpTo(issued, year, count) && 1 <= k <= count <= SEQUENCE_LIMIT
    requires forall s :: s in rest <==> s in issued && s != Number(year, k)
    ensures Next(rest, year) == Number(year, if k == count then k else count + 1)
    ensures Next(rest, year) == Number(year, k) <==> k == count
    ensures Next(rest, year) !in rest
  {
    var top, next := if k == count then k - 1 else count, if k == count then k else count + 1;
    LatestAfterPurge(issued, rest, year, count, k, top);
    NumberReadsBack(year, top);
    if Number(year, next) == Number(year, k) {
      NumbersDiffer(year, next, year, k);
    }
    assert Number(year, count + 1) !in issued;
  }

  lemma LatestAfterPurge(issued: seq<string>, rest: seq<string>, year: nat, count: nat, k: nat, top: nat)
    requires IssuedUpTo(issued, year, count) && 1 <= k <= count <= SEQUENCE_LIMIT
    requires forall s :: s in rest <==> s in issued && s != Number(year, k)
    requires top == if k == count then k - 1 else count
    ensures Latest(rest, Prefix(year)) == if top == 0 then None else Some(Number(year, top))
  {
    LatestIsLast(rest, Prefix(year));
    if Number(year, top) == Number(year, k) {
      NumbersDiffer(year, top, year, k);
    }
    assert top > 0 ==> Number(year, top) in rest && Prefix(year) <= Number(year, top);
    var r := Latest(rest, Prefix(year));
    if r.Some? {
      var j: nat :| r.value == Number(year, j);
      assert 1 <= j <= count && j != k;
      assert j <= top;
      TextOrderIsNumberOrder(year, j, top);
    }
  }

  // One allocation: the number offered is taken unless it is in use already.
  function Allocate(issued: seq<string>, year: nat): seq<string> {
    var s := Next(issued, year);
    if s in issued then issued else issued + [s]
  }

  function Allocations(years: seq<nat>): seq<string> {
    if years == [] then [] else Allocate(Allocations(years[..|years| - 1]), years[|years| - 1])
  }

  function Asked(years: seq<nat>, year: nat): nat {
    if years == [] then 0
    else Asked(years[..|years| - 1], year) + if years[|years| - 1] == year then 1 else 0
  }

  function AtMost(n: nat, limit: nat): nat { if n < limit then n else limit }

  // After any run of allocations, in whatever order the years come, each year has the numbers from 1 to
  // the number of allocations asked for, without a gap, up to 10000, and no number is issued twice.
  lemma {:induction false} AllocationsAreConsecutive(years: seq<nat>, year: nat)
    requires Year(year) && forall i :: 0 <= i < |years| ==> Year(years[i])
    ensures IssuedUpTo(Allocations(years), year, AtMost(Asked(years, year), 10000))
    ensures forall i, j :: 0 <= i < j < |Allocations(years)| ==> Allocations(years)[i] != Allocations(years)[j]
  {
    if years != [] {
      var shorter, last := years[..|years| - 1], years[|years| - 1];
      var issued := Allocations(shorter);
      AllocationsAreConsecutive(shorter, year);
      AllocationsAreConsecutive(shorter, last);
      var count := AtMost(Asked(shorter, last), 10000);
      NextIsFreshExactly(issued, last, count);
      if count < 10000 {
        IssuingExtends(issued, last, count + 1, year, AtMost(Asked(shorter, year), 10000));
      }
    }
  }

  // A number that was read while others were issuing is still the next one, or is taken.
  lemma ReadNumberIsNextOrTaken(before: seq<string>, after: seq<string>, year: nat, count: nat, more: nat)
    requires IssuedUpTo(before, year, count) && IssuedUpTo(after, year, count + more) && count + more <= 10000
    ensures Next(before, year) in after || Next(before, year) == Next(after, year)
  {
    NextIsFreshExactly(before, year, count);
    if more == 0 {
      NextIsFreshExactly(after, year, count);
    } else {
      assert 1 <= count + 1 <= count + more;
    }
  }
}

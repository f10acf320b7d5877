/** `format_duration_long`: a nanosecond count written with its two largest
    non-zero units, walking a fixed table from years down to nanoseconds
    with `divmod` and stopping as soon as two parts are collected. */
module Duration {
  import opened Text

  datatype Unit = Unit(name: string, factor: nat)

  const Year := Unit("y", 31_536_000_000_000_000)
  const Month := Unit("mo", 2_592_000_000_000_000)
  const Day := Unit("d", 86_400_000_000_000)
  const Hour := Unit("h", 3_600_000_000_000)
  const Minute := Unit("m", 60_000_000_000)
  const Second := Unit("s", 1_000_000_000)
  const Millisecond := Unit("ms", 1_000_000)
  const Microsecond := Unit("us", 1_000)
  const Nanosecond := Unit("ns", 1)

  /** The unit table, largest first, in nanoseconds; a month is 30 days
      and a year 365. */
  const Units: seq<Unit> := [Year, Month, Day, Hour, Minute, Second, Millisecond, Microsecond, Nanosecond]

  /** What the walk relies on: positive factors, each smaller than the one
      before, the last one 1. */
  predicate ValidTable(units: seq<Unit>) {
    && |units| > 0
    && (forall k :: 0 <= k < |units| ==> units[k].factor > 0)
    && (forall k :: 0 < k < |units| ==> units[k].factor < units[k - 1].factor)
    && units[|units| - 1].factor == 1
  }

  /** The factors are the products the table is written with, and the table is valid. */
  lemma UnitsTable()
    ensures |Units| == 9 && ValidTable(Units)
    ensures Units[0].factor == 365 * 24 * 60 * 60 * 1_000_000_000
    ensures Units[1].factor == 30 * 24 * 60 * 60 * 1_000_000_000
    ensures Units[2].factor == 24 * 60 * 60 * 1_000_000_000
    ensures Units[3].factor == 60 * 60 * 1_000_000_000
    ensures Units[4].factor == 60 * 1_000_000_000
  {
  }

  /** Dropping the first unit keeps a table of two or more units valid. */
  lemma ValidTableTail(units: seq<Unit>)
    requires ValidTable(units) && |units| > 1
    ensures ValidTable(units[1..])
  {
  }

  /** One `f"{value}{name}"` part. */
  datatype Part = Part(value: int, unit: Unit)

  /** At most two parts, each with a non-zero value and a unit of `units`,
      the second of a smaller unit than the first. */
  predicate WellFormedParts(ps: seq<Part>, units: seq<Unit>) {
    && |ps| <= 2
    && (forall i :: 0 <= i < |ps| ==> ps[i].value != 0 && ps[i].unit in units)
    && (|ps| == 2 ==> ps[1].unit.factor < ps[0].unit.factor)
  }

  /** The loop over `units` with `rest` nanoseconds left and `acc` already
      collected. `divmod` by a positive factor floors, which is Dafny's
      Euclidean `/` and `%` for a positive divisor. */
  function PartsFrom(rest: int, units: seq<Unit>, acc: seq<Part>): seq<Part>
    requires forall k :: 0 <= k < |units| ==> units[k].factor > 0
    requires |acc| < 2
    decreases |units|
  {
    if |units| == 0 then acc
    else
      var acc' := Collect(rest, units[0], acc);
      if |acc'| == 2 then acc' else PartsFrom(rest % units[0].factor, units[1..], acc')
  }

  /** One iteration: `value, ns = divmod(ns, factor)`, and the part
      appended when `value` is not zero. */
  function Collect(rest: int, u: Unit, acc: seq<Part>): seq<Part>
    requires u.factor > 0
  {
    var value := rest / u.factor;
    if value != 0 then acc + [Part(value, u)] else acc
  }

  function Parts(ns: int): seq<Part> {
    UnitsTable();
    PartsFrom(ns, Units, [])
  }

  function RenderPart(p: Part): string {
    IntToString(p.value) + p.unit.name
  }

  function RenderParts(ps: seq<Part>): (r: seq<string>)
    ensures |r| == |ps|
  {
    if |ps| == 0 then [] else [RenderPart(ps[0])] + RenderParts(ps[1..])
  }

  /** `"0s"` when no part was collected, otherwise the parts joined with
      nothing between; so `"0s"` exactly for a zero count. */
  function FormatDurationLong(ns: int): (r: string)
    ensures r == "0s" <==> ns == 0
  {
    var ps := Parts(ns);
    PartsEmpty(ns);
    if |ps| == 0 then "0s"
    else
      JoinedPartsNotZero(ns);
      Join(RenderParts(ps), "")
  }

  /* ---------------------------------------------------------------------- */
  /* Shape of the parts                                                      */

  /** The walk keeps what it collected, adds parts of its own units only,
      each smaller than the last one collected, and stops at two. */
  lemma {:induction false} PartsFromShape(rest: int, units: seq<Unit>, acc: seq<Part>)
    requires ValidTable(units) && |acc| < 2
    requires forall i :: 0 <= i < |acc| ==> acc[i].value != 0
    requires |acc| == 1 ==> units[0].factor < acc[0].unit.factor
    ensures var ps := PartsFrom(rest, units, acc);
            && |acc| <= |ps| <= 2 && ps[..|acc|] == acc
            && (forall i :: |acc| <= i < |ps| ==> ps[i].value != 0 && ps[i].unit in units)
            && (|ps| == 2 ==> ps[1].unit.factor < ps[0].unit.factor)
    decreases |units|
  {
    var u := units[0];
    var acc' := Collect(rest, u, acc);
    assert acc'[..|acc|] == acc;
    if |acc'| < 2 && |units| > 1 {
      ValidTableTail(units);
      PartsFromShape(rest % u.factor, units[1..], acc');
      var ps := PartsFrom(rest % u.factor, units[1..], acc');
      assert ps[..|acc|] == ps[..|acc'|][..|acc|];
      forall i | |acc| <= i < |ps|
        ensures ps[i].value != 0 && ps[i].unit in units
      {
        if i >= |acc'| {
          assert ps[i].unit in units[1..];
        }
      }
    }
  }

  /** At most two parts, each non-zero, of table units, in descending order. */
  lemma PartsShape(ns: int)
    ensures WellFormedParts(Parts(ns), Units)
  {
    UnitsTable();
    PartsFromShape(ns, Units, []);
  }

  /* ---------------------------------------------------------------------- */
  /* When the result is "0s"                                                 */

  lemma DivSmall(x: int, f: int)
    requires 0 <= x < f
    ensures x / f == 0 && x % f == x
  {
  }

  /** With nothing collected yet, a non-zero remainder always yields a
      part: a negative one at the first unit (`divmod` floors), a positive
      one at the latest where the factor is 1. */
  lemma {:induction false} PartsFromNonZero(rest: int, units: seq<Unit>)
    requires ValidTable(units) && rest != 0
    ensures PartsFrom(rest, units, []) != []
    decreases |units|
  {
    var u := units[0];
    DivMod(rest, u.factor);
    if rest / u.factor == 0 {
      if |units| > 1 {
        ValidTableTail(units);
        PartsFromNonZero(rest % u.factor, units[1..]);
      }
    } else {
      PartsFromGrows(rest % u.factor, units[1..], Collect(rest, u, []));
    }
  }

  /** The walk never drops a collected part. */
  lemma {:induction false} PartsFromGrows(rest: int, units: seq<Unit>, acc: seq<Part>)
    requires forall k :: 0 <= k < |units| ==> units[k].factor > 0
    requires |acc| < 2
    ensures |PartsFrom(rest, units, acc)| >= |acc|
    decreases |units|
  {
    if |units| > 0 {
      var acc' := Collect(rest, units[0], acc);
      if |acc'| < 2 {
        PartsFromGrows(rest % units[0].factor, units[1..], acc');
      }
    }
  }

  lemma {:induction false} PartsFromZero(units: seq<Unit>)
    requires forall k :: 0 <= k < |units| ==> units[k].factor > 0
    ensures PartsFrom(0, units, []) == []
    decreases |units|
  {
    if |units| > 0 {
      PartsFromZero(units[1..]);
    }
  }

  /** No part is collected exactly when the count is zero. */
  lemma PartsEmpty(ns: int)
    ensures Parts(ns) == [] <==> ns == 0
  {
    UnitsTable();
    if ns == 0 {
      PartsFromZero(Units);
    } else {
      PartsFromNonZero(ns, Units);
    }
  }

  /** A non-zero value never renders with a leading `0`. */
  lemma IntToStringNonZero(v: int)
    requires v != 0
    ensures IntToString(v)[0] != '0'
  {
    if v > 0 {
      NatToStringNoLeadingZero(v);
    }
  }

  /** The joined parts of a non-zero count start with a digit other than
      `0` or with `-`, so they are never `"0s"`. */
  lemma JoinedPartsNotZero(ns: int)
    requires ns != 0
    ensures Join(RenderParts(Parts(ns)), "") != "0s"
  {
    PartsEmpty(ns);
    PartsShape(ns);
    var ps := Parts(ns);
    var r := RenderParts(ps);
    assert r[0] == RenderPart(ps[0]);
    IntToStringNonZero(ps[0].value);
    if |ps| == 1 {
      assert Join(r, "") == r[0];
    } else {
      assert Join(r, "") == r[0] + "" + Join(r[1..], "");
    }
    assert Join(r, "")[0] == r[0][0] == IntToString(ps[0].value)[0];
  }

  /** The result is `"0s"` exactly when the count is zero; otherwise it is
      the first part rendered, followed by the second when there is one. */
  lemma FormatZero(ns: int)
    ensures FormatDurationLong(ns) == "0s" <==> ns == 0
    ensures ns != 0 ==>
              && 1 <= |Parts(ns)| <= 2
              && FormatDurationLong(ns)
                 == RenderPart(Parts(ns)[0]) + (if |Parts(ns)| == 2 then RenderPart(Parts(ns)[1]) else "")
  {
    PartsEmpty(ns);
    PartsShape(ns);
    if ns != 0 {
      var ps := Parts(ns);
      if |ps| == 1 {
        assert ps == [ps[0]];
        JoinRenderedSingle(ps[0]);
      } else {
        assert ps == [ps[0], ps[1]];
        JoinRenderedPair(ps[0], ps[1]);
      }
    }
  }

  lemma JoinRenderedSingle(a: Part)
    ensures Join(RenderParts([a]), "") == RenderPart(a)
  {
    assert [a][1..] == [];
  }

  lemma JoinRenderedPair(a: Part, b: Part)
    ensures Join(RenderParts([a, b]), "") == RenderPart(a) + RenderPart(b)
  {
    RenderPartsPair(a, b);
    var r := [RenderPart(a), RenderPart(b)];
    assert r[1..] == [RenderPart(b)];
    assert r[1..][1..] == [];
  }

  /* ---------------------------------------------------------------------- */
  /* Truncation: what the parts add up to                                    */

  /** The nanoseconds the parts stand for. */
  function Total(ps: seq<Part>): int {
    if |ps| == 0 then 0 else Total(ps[..|ps| - 1]) + ps[|ps| - 1].value * ps[|ps| - 1].unit.factor
  }

  lemma DivMod(x: int, f: int)
    requires f > 0
    ensures x == (x / f) * f + x % f && 0 <= x % f < f
  {
  }

  lemma TotalSnoc(acc: seq<Part>, p: Part)
    ensures Total(acc + [p]) == Total(acc) + p.value * p.unit.factor
  {
    assert (acc + [p])[..|acc|] == acc;
  }

  /** One iteration moves `rest - rest % factor` into the parts. */
  lemma CollectTotal(rest: int, u: Unit, acc: seq<Part>)
    requires u.factor > 0
    ensures Total(Collect(rest, u, acc)) - Total(acc) == rest - rest % u.factor
  {
    DivMod(rest, u.factor);
    var value := rest / u.factor;
    if value != 0 {
      TotalSnoc(acc, Part(value, u));
    }
  }

  /** `ps` extends `acc` by parts that account for `rest` down to a
      non-negative remainder: zero when fewer than two parts were collected,
      below the second part's unit when two were. */
  predicate Accounts(rest: int, acc: seq<Part>, ps: seq<Part>) {
    var d := rest - (Total(ps) - Total(acc));
    && 0 <= d
    && (|ps| < 2 ==> d == 0)
    && (|ps| == 2 ==> d < ps[1].unit.factor)
  }

  /** Accounting carries back over a step that moved `rest - r` into the parts. */
  lemma AccountsShift(rest: int, r: int, acc: seq<Part>, acc': seq<Part>, ps: seq<Part>)
    requires Total(acc') - Total(acc) == rest - r
    requires Accounts(r, acc', ps)
    ensures Accounts(rest, acc, ps)
  {
  }

  /** Stopping at two parts leaves the remainder of the second part's unit. */
  lemma CollectStop(rest: int, u: Unit, acc: seq<Part>)
    requires u.factor > 0 && |acc| < 2
    requires |Collect(rest, u, acc)| == 2
    ensures Accounts(rest % u.factor, Collect(rest, u, acc), Collect(rest, u, acc))
  {
    DivMod(rest, u.factor);
    assert Collect(rest, u, acc)[1].unit == u;
  }

  /** Walking a valid table, the parts collected account for the remainder. */
  lemma {:induction false} PartsFromTotal(rest: int, units: seq<Unit>, acc: seq<Part>)
    requires ValidTable(units) && |acc| < 2
    ensures Accounts(rest, acc, PartsFrom(rest, units, acc))
    decreases |units|
  {
    var u := units[0];
    var acc' := Collect(rest, u, acc);
    var r := rest % u.factor;
    DivMod(rest, u.factor);
    CollectTotal(rest, u, acc);
    if |acc'| == 2 {
      CollectStop(rest, u, acc);
      AccountsShift(rest, r, acc, acc', acc');
    } else if |units| == 1 {
      assert r == 0;
      AccountsShift(rest, r, acc, acc', acc');
    } else {
      ValidTableTail(units);
      PartsFromTotal(r, units[1..], acc');
      AccountsShift(rest, r, acc, acc', PartsFrom(r, units[1..], acc'));
    }
  }

  /** The parts never overshoot the count; with fewer than two parts they
      are exact, and with two the dropped remainder is below the second
      part's unit. */
  lemma PartsTotal(ns: int)
    ensures 0 <= ns - Total(Parts(ns))
    ensures |Parts(ns)| < 2 ==> ns == Total(Parts(ns))
    ensures |Parts(ns)| == 2 ==> ns - Total(Parts(ns)) < Parts(ns)[1].unit.factor
  {
    UnitsTable();
    PartsFromTotal(ns, Units, []);
  }

  /* ---------------------------------------------------------------------- */
  /* Which units: the two largest non-zero ones                              */

  /** `x` has no whole unit of any table unit larger than `f`. */
  predicate ZeroAbove(x: int, units: seq<Unit>, f: int)
    requires forall k :: 0 <= k < |units| ==> units[k].factor > 0
  {
    forall k :: 0 <= k < |units| && units[k].factor > f ==> x / units[k].factor == 0
  }

  /** `x` has no whole unit of any table unit strictly between `lo` and `hi`. */
  predicate ZeroBetween(x: int, units: seq<Unit>, lo: int, hi: int)
    requires forall k :: 0 <= k < |units| ==> units[k].factor > 0
  {
    forall k :: 0 <= k < |units| && lo < units[k].factor < hi ==> x / units[k].factor == 0
  }

  lemma ModLe(x: int, f: int)
    requires 0 <= x && f > 0
    ensures 0 <= x % f <= x
  {
    DivMod(x, f);
  }

  /** A zero digit in the first unit extends `ZeroAbove` from the tail to the table. */
  lemma ZeroAboveCons(x: int, units: seq<Unit>, f: int)
    requires ValidTable(units) && |units| > 1
    requires x / units[0].factor == 0 && ZeroAbove(x, units[1..], f)
    ensures ZeroAbove(x, units, f)
  {
    forall k | 0 < k < |units| && units[k].factor > f
      ensures x / units[k].factor == 0
    {
      assert units[k] == units[1..][k - 1];
    }
  }

  /** Likewise for `ZeroBetween`. */
  lemma ZeroBetweenCons(x: int, units: seq<Unit>, lo: int, hi: int)
    requires ValidTable(units) && |units| > 1
    requires x / units[0].factor == 0 && ZeroBetween(x, units[1..], lo, hi)
    ensures ZeroBetween(x, units, lo, hi)
  {
    forall k | 0 < k < |units| && lo < units[k].factor < hi
      ensures x / units[k].factor == 0
    {
      assert units[k] == units[1..][k - 1];
    }
  }

  /** Below the first unit, "nothing above `lo` in the tail" is "nothing
      between `lo` and the first unit" in the whole table. */
  lemma ZeroBetweenFromTail(x: int, units: seq<Unit>, lo: int)
    requires ValidTable(units) && |units| > 1
    requires ZeroAbove(x, units[1..], lo)
    ensures ZeroBetween(x, units, lo, units[0].factor)
  {
    forall k | 0 < k < |units| && lo < units[k].factor < units[0].factor
      ensures x / units[k].factor == 0
    {
      assert units[k] == units[1..][k - 1];
    }
  }

  /** No unit of a valid table is larger than its first. */
  lemma ZeroAboveFirst(x: int, units: seq<Unit>)
    requires ValidTable(units)
    ensures ZeroAbove(x, units, units[0].factor)
  {
    forall k | 0 <= k < |units|
      ensures units[k].factor <= units[0].factor
    {
      ValidTableMonotone(units, 0, k);
    }
  }

  /** After a first part, the second is the first non-zero digit of the
      remainder, and every larger unit of the table is a zero digit of it;
      with no second part, every unit is. */
  lemma {:induction false} PartsFromSecond(rest: int, units: seq<Unit>, p: Part)
    requires ValidTable(units)
    ensures var ps := PartsFrom(rest, units, [p]);
            && 1 <= |ps| <= 2 && ps[0] == p
            && (|ps| == 2 ==> ps[1].unit in units && ps[1].unit.factor > 0 && ps[1].value == rest / ps[1].unit.factor && ZeroAbove(rest, units, ps[1].unit.factor))
            && (|ps| == 1 ==> ZeroAbove(rest, units, 0))
    decreases |units|
  {
    var u := units[0];
    DivMod(rest, u.factor);
    if rest / u.factor != 0 {
      assert PartsFrom(rest, units, [p]) == [p, Part(rest / u.factor, u)];
      ZeroAboveFirst(rest, units);
    } else if |units| == 1 {
      assert PartsFrom(rest, units, [p]) == [p];
    } else {
      ValidTableTail(units);
      DivSmall(rest, u.factor);
      PartsFromSecond(rest, units[1..], p);
      var ps := PartsFrom(rest, units[1..], [p]);
      assert PartsFrom(rest, units, [p]) == ps;
      if |ps| == 2 {
        ZeroAboveCons(rest, units, ps[1].unit.factor);
      } else {
        ZeroAboveCons(rest, units, 0);
      }
    }
  }

  /** The first part is the first non-zero digit, with every larger unit a
      zero digit; the second is the next non-zero digit of the remainder,
      with every unit between the two a zero digit of it; with one part,
      every smaller unit is a zero digit of the remainder. */
  predicate LeadingDigits(rest: int, units: seq<Unit>, ps: seq<Part>)
    requires forall k :: 0 <= k < |units| ==> units[k].factor > 0
    requires forall i :: 0 <= i < |ps| ==> ps[i].unit.factor > 0
  {
    && (|ps| >= 1 ==> ps[0].value == rest / ps[0].unit.factor && ZeroAbove(rest, units, ps[0].unit.factor))
    && (|ps| == 2 ==>
          && ps[1].value == (rest % ps[0].unit.factor) / ps[1].unit.factor
          && ZeroBetween(rest % ps[0].unit.factor, units, ps[1].unit.factor, ps[0].unit.factor))
    && (|ps| == 1 ==> ZeroBetween(rest % ps[0].unit.factor, units, 0, ps[0].unit.factor))
  }

  /** The walk from the start collects the leading digits. */
  lemma {:induction false} PartsFromLeading(rest: int, units: seq<Unit>)
    requires ValidTable(units)
    ensures PartsFromUnits(rest, units)
    ensures LeadingDigits(rest, units, PartsFrom(rest, units, []))
    decreases |units|
  {
    PartsFromUnitsOf(rest, units);
    if rest / units[0].factor != 0 {
      LeadingTake(rest, units);
    } else if |units| > 1 {
      ValidTableTail(units);
      PartsFromLeading(rest, units[1..]);
      LeadingSkip(rest, units);
    } else {
      assert Collect(rest, units[0], []) == [];
    }
  }

  /** A non-zero first digit is the first part. */
  lemma LeadingTake(rest: int, units: seq<Unit>)
    requires ValidTable(units) && rest / units[0].factor != 0
    ensures PartsFromUnits(rest, units)
    ensures LeadingDigits(rest, units, PartsFrom(rest, units, []))
  {
    var u := units[0];
    var v := rest / u.factor;
    PartsFromUnitsOf(rest, units);
    ZeroAboveFirst(rest, units);
    assert Collect(rest, u, []) == [Part(v, u)];
    if |units| > 1 {
      ValidTableTail(units);
      PartsFromSecond(rest % u.factor, units[1..], Part(v, u));
      var ps := PartsFrom(rest % u.factor, units[1..], [Part(v, u)]);
      assert PartsFrom(rest, units, []) == ps;
      if |ps| == 2 {
        ZeroBetweenFromTail(rest % u.factor, units, ps[1].unit.factor);
      } else {
        ZeroBetweenFromTail(rest % u.factor, units, 0);
      }
    }
  }

  /** A zero first digit is skipped: the tail's leading digits are the table's. */
  lemma LeadingSkip(rest: int, units: seq<Unit>)
    requires ValidTable(units) && |units| > 1 && rest / units[0].factor == 0
    requires ValidTable(units[1..]) && PartsFromUnits(rest, units[1..])
    requires LeadingDigits(rest, units[1..], PartsFrom(rest, units[1..], []))
    ensures PartsFromUnits(rest, units)
    ensures LeadingDigits(rest, units, PartsFrom(rest, units, []))
  {
    var u := units[0];
    PartsFromUnitsOf(rest, units);
    DivMod(rest, u.factor);
    DivSmall(rest, u.factor);
    var ps := PartsFrom(rest, units[1..], []);
    assert Collect(rest, u, []) == [];
    assert PartsFrom(rest, units, []) == ps;
    if |ps| >= 1 {
      var f0 := ps[0].unit.factor;
      ZeroAboveCons(rest, units, f0);
      ModLe(rest, f0);
      DivSmall(rest % f0, u.factor);
      PartsFromShape(rest, units[1..], []);
      if |ps| == 2 {
        ZeroBetweenCons(rest % f0, units, ps[1].unit.factor, f0);
      } else {
        ZeroBetweenCons(rest % f0, units, 0, f0);
      }
    }
  }

  /** Every collected part has a positive factor. */
  predicate PartsFromUnits(rest: int, units: seq<Unit>)
    requires forall k :: 0 <= k < |units| ==> units[k].factor > 0
  {
    forall i :: 0 <= i < |PartsFrom(rest, units, [])| ==> PartsFrom(rest, units, [])[i].unit.factor > 0
  }

  lemma PartsFromUnitsOf(rest: int, units: seq<Unit>)
    requires ValidTable(units)
    ensures PartsFromUnits(rest, units)
  {
    PartsFromShape(rest, units, []);
    var ps := PartsFrom(rest, units, []);
    forall i | 0 <= i < |ps|
      ensures ps[i].unit.factor > 0
    {
      var k :| 0 <= k < |units| && units[k] == ps[i].unit;
    }
  }

  /** `format_duration_long` keeps exactly the two largest non-zero units:
      the first part is `ns` in the largest unit that divides into it
      (every larger unit giving zero), the second is the remainder in the
      next unit that divides into that, and the units skipped in between
      give zero. */
  lemma PartsLeading(ns: int)
    ensures forall i :: 0 <= i < |Parts(ns)| ==> Parts(ns)[i].unit.factor > 0
    ensures LeadingDigits(ns, Units, Parts(ns))
  {
    UnitsTable();
    PartsFromLeading(ns, Units);
  }

  /* ---------------------------------------------------------------------- */
  /* Examples                                                                */

  /** A unit whose value is zero is skipped. */
  lemma PartsFromSkip(rest: int, units: seq<Unit>, acc: seq<Part>)
    requires |units| > 0 && |acc| < 2
    requires forall k :: 0 <= k < |units| ==> units[k].factor > 0
    requires 0 <= rest < units[0].factor
    ensures PartsFrom(rest, units, acc) == PartsFrom(rest, units[1..], acc)
  {
    DivSmall(rest, units[0].factor);
  }

  /** Every unit above the remainder is skipped; the table is decreasing,
      so it is enough that the remainder is below the last unit skipped. */
  lemma {:induction false} PartsFromSkipTo(rest: int, units: seq<Unit>, acc: seq<Part>, n: nat)
    requires ValidTable(units) && |acc| < 2
    requires 0 < n < |units| && 0 <= rest < units[n - 1].factor
    ensures PartsFrom(rest, units, acc) == PartsFrom(rest, units[n..], acc)
    decreases n
  {
    assert units[n - 1].factor <= units[0].factor by {
      ValidTableMonotone(units, 0, n - 1);
    }
    PartsFromSkip(rest, units, acc);
    if n > 1 {
      ValidTableTail(units);
      PartsFromSkipTo(rest, units[1..], acc, n - 1);
      assert units[1..][n - 1..] == units[n..];
    }
  }

  lemma {:induction false} ValidTableMonotone(units: seq<Unit>, i: nat, j: nat)
    requires ValidTable(units) && i <= j < |units|
    ensures units[j].factor <= units[i].factor
    decreases j - i
  {
    if i < j {
      ValidTableMonotone(units, i, j - 1);
    }
  }

  /** A unit whose value is not zero is taken; the walk goes on after a first part. */
  lemma PartsFromTakeFirst(rest: int, units: seq<Unit>, value: int, r: int)
    requires |units| > 0
    requires forall k :: 0 <= k < |units| ==> units[k].factor > 0
    requires value == rest / units[0].factor && r == rest % units[0].factor && value != 0
    ensures PartsFrom(rest, units, []) == PartsFrom(r, units[1..], [Part(value, units[0])])
  {
    assert Collect(rest, units[0], []) == [Part(value, units[0])];
  }

  /** ... and stops after a second one. */
  lemma PartsFromTakeSecond(rest: int, units: seq<Unit>, p: Part, value: int)
    requires |units| > 0
    requires forall k :: 0 <= k < |units| ==> units[k].factor > 0
    requires value == rest / units[0].factor && value != 0
    ensures PartsFrom(rest, units, [p]) == [p, Part(value, units[0])]
  {
    assert Collect(rest, units[0], [p]) == [p, Part(value, units[0])];
  }

  /** One second and five microseconds keeps the microseconds: sub-second
      units are not suppressed above one second. */
  lemma SecondAndMicroseconds(ns: int)
    requires ns == 1_000_000_000 + 5_000
    ensures Parts(ns) == [Part(1, Second), Part(5, Microsecond)]
    ensures FormatDurationLong(ns) == "1s5us"
  {
    UnitsTable();
    var t := Units;
    PartsFromSkipTo(ns, t, [], 5);
    var r := ns % 1_000_000_000;
    PartsFromTakeFirst(ns, t[5..], 1, r);
    PartsFromSkip(r, t[6..], [Part(1, Second)]);
    PartsFromTakeSecond(r, t[7..], Part(1, Second), 5);
    RenderSecondAndMicroseconds();
  }

  lemma RenderPartsPair(a: Part, b: Part)
    ensures RenderParts([a, b]) == [RenderPart(a), RenderPart(b)]
  {
    assert [a, b][1..] == [b];
    assert [b][1..] == [];
  }

  lemma RenderSecondAndMicroseconds()
    ensures Join(RenderParts([Part(1, Second), Part(5, Microsecond)]), "") == "1s5us"
  {
    var r := RenderParts([Part(1, Second), Part(5, Microsecond)]);
    assert IntToString(1) == "1" && IntToString(5) == "5";
    RenderPartsPair(Part(1, Second), Part(5, Microsecond));
    assert r[0] == "1s" && r[1] == "5us";
    assert Join(r, "") == r[0] + "" + Join(r[1..], "");
  }

  /** One hour, two minutes and three seconds is cut to its two largest units. */
  lemma HourMinutesSeconds(ns: int)
    requires ns == 3_600_000_000_000 + 2 * 60_000_000_000 + 3_000_000_000
    ensures Parts(ns) == [Part(1, Hour), Part(2, Minute)]
    ensures FormatDurationLong(ns) == "1h2m"
  {
    UnitsTable();
    var t := Units;
    PartsFromSkipTo(ns, t, [], 3);
    var r := ns % 3_600_000_000_000;
    PartsFromTakeFirst(ns, t[3..], 1, r);
    PartsFromTakeSecond(r, t[4..], Part(1, Hour), 2);
    RenderHourMinutes();
  }

  lemma RenderHourMinutes()
    ensures Join(RenderParts([Part(1, Hour), Part(2, Minute)]), "") == "1h2m"
  {
    var r := RenderParts([Part(1, Hour), Part(2, Minute)]);
    assert IntToString(1) == "1" && IntToString(2) == "2";
    RenderPartsPair(Part(1, Hour), Part(2, Minute));
    assert r[0] == "1h" && r[1] == "2m";
    assert Join(r, "") == r[0] + "" + Join(r[1..], "");
  }
}

/**
 * The bounded in-memory store of readings. Its contents are a sequence in
 * arrival order, never longer than the capacity; appending to a full store
 * drops the oldest reading. Every query is a function of that sequence, taken
 * as a snapshot. The lock that makes each operation atomic is not modelled: the
 * operations are sequential here.
 */
module Storage {
  import opened Wrappers
  import opened Models

  /** The capacity of a store built without an explicit one. */
  const DefaultCapacity: nat := 1000

  function Min(a: int, b: int): int { if a <= b then a else b }

  // ---------------------------------------------------------------------------
  // The bounded deque
  // ---------------------------------------------------------------------------

  /**
   * A bounded deque after an append: readings leave from the left until at
   * most `cap` remain. What remains is the newest `min(|t|, cap)` of them.
   */
  function Trim<T>(t: seq<T>, cap: nat): (r: seq<T>)
    ensures |r| == Min(|t|, cap)
    ensures r == t[|t| - |r|..]
    decreases |t|
  {
    if |t| <= cap then t else Trim(t[1..], cap)
  }

  /**
   * Appending `x` to a store of capacity `cap` holding `s`: below capacity it
   * goes to the tail; at capacity exactly the oldest reading is dropped first;
   * a store of capacity zero stays empty.
   */
  function Appended<T>(s: seq<T>, cap: nat, x: T): (r: seq<T>)
    requires |s| <= cap
    ensures |r| <= cap
    ensures |s| < cap ==> r == s + [x]
    ensures 0 < |s| == cap ==> r == s[1..] + [x]
    ensures cap == 0 ==> r == []
  {
    var r := Trim(s + [x], cap);
    assert 0 < |s| == cap ==> r == (s + [x])[1..] && (s + [x])[1..] == s[1..] + [x];
    r
  }

  /** The contents of a store of capacity `cap` that started empty and received `ws` in order. */
  function Written<T>(ws: seq<T>, cap: nat): (r: seq<T>)
    ensures |r| <= cap
  {
    if ws == [] then [] else Appended(Written(ws[..|ws| - 1], cap), cap, ws[|ws| - 1])
  }

  /**
   * Writing `ws` into an empty store of capacity `cap` leaves exactly the last
   * `cap` of them in arrival order (all of them when they fit).
   */
  lemma {:induction false} WrittenKeepsNewest<T>(ws: seq<T>, cap: nat)
    ensures |ws| <= cap ==> Written(ws, cap) == ws
    ensures |ws| > cap ==> Written(ws, cap) == ws[|ws| - cap..]
  {
    if ws != [] {
      WrittenKeepsNewest(ws[..|ws| - 1], cap);
      WindowAfterAppend(ws, cap, Written(ws[..|ws| - 1], cap));
    }
  }

  /** One append moves the window of the newest `cap` readings along by one. */
  lemma WindowAfterAppend<T>(ws: seq<T>, cap: nat, w: seq<T>)
    requires ws != []
    requires |ws| - 1 <= cap ==> w == ws[..|ws| - 1]
    requires |ws| - 1 > cap ==> w == ws[..|ws| - 1][|ws| - 1 - cap..]
    ensures |w| <= cap
    ensures |ws| <= cap ==> Appended(w, cap, ws[|ws| - 1]) == ws
    ensures |ws| > cap ==> Appended(w, cap, ws[|ws| - 1]) == ws[|ws| - cap..]
  {
    var p, x := ws[..|ws| - 1], ws[|ws| - 1];
    assert ws == p + [x];
    if |p| >= cap {
      if cap == 0 {
        assert Appended(w, cap, x) == [];
      } else {
        assert w == p[|p| - cap..] by {
          if |p| == cap { assert p[|p| - cap..] == p; }
        }
        WindowSlides(p, x, cap);
      }
    }
  }

  /** Dropping the oldest of the newest `cap` and adding `x` gives the newest `cap` of `p + [x]`. */
  lemma WindowSlides<T>(p: seq<T>, x: T, cap: nat)
    requires 0 < cap <= |p|
    ensures p[|p| - cap..][1..] + [x] == (p + [x])[|p| + 1 - cap..]
  {
    var l := p[|p| - cap..][1..] + [x];
    var r := (p + [x])[|p| + 1 - cap..];
    assert |l| == |r| == cap;
    forall i | 0 <= i < cap ensures l[i] == r[i] {
      if i < cap - 1 { assert l[i] == p[|p| - cap + 1 + i]; }
    }
  }

  /** Capacity 2, readings A, B, C written in order: the store holds [B, C]. */
  lemma ThreeIntoTwo<T>(a: T, b: T, c: T)
    ensures Written([a, b, c], 2) == [b, c]
  {
    WrittenKeepsNewest([a, b, c], 2);
  }

  // ---------------------------------------------------------------------------
  // Latest N
  // ---------------------------------------------------------------------------

  /** Where a Python slice `s[i:]` starts, for a sequence of length `n`. */
  function SliceStart(i: int, n: nat): (k: nat)
    ensures k <= n
    ensures 0 <= i <= n ==> k == i
    ensures -(n as int) <= i < 0 ==> k == n + i
    ensures i < -(n as int) ==> k == 0
    ensures i > n ==> k == n
  {
    if i < 0 then (if i + n < 0 then 0 else i + n)
    else if i > n then n
    else i
  }

  /**
   * The last `limit` readings, oldest first, as Python's `s[-limit:]` gives
   * them: a positive limit keeps the newest `min(limit, |s|)`; a zero limit
   * (`s[-0:]`, that is `s[0:]`) keeps everything; a negative limit drops the
   * first `-limit`.
   */
  function Latest<T>(s: seq<T>, limit: int): (r: seq<T>)
    ensures limit >= 1 ==> |r| == Min(limit, |s|) && r == s[|s| - |r|..]
    ensures limit == 0 ==> r == s
    ensures limit < 0 ==> r == s[Min(-limit, |s|)..]
  {
    s[SliceStart(-limit, |s|)..]
  }

  // ---------------------------------------------------------------------------
  // Time-range filter
  // ---------------------------------------------------------------------------

  /**
   * Outcome of the time-range filter: the matching readings, or the error
   * raised when a bound is compared against a reading without a timestamp.
   */
  datatype RangeResult = Matched(readings: seq<Reading>) | Incomparable

  /** One side of the window, as a single comparison. */
  datatype Bound = From(t: Time) | Until(t: Time)

  predicate Passes(t: Time, b: Bound) {
    match b
    case From(lo) => t >= lo
    case Until(hi) => t <= hi
  }

  /**
   * A list comprehension keeping the readings whose timestamp passes the bound,
   * in order; it fails on the first reading that has no timestamp.
   */
  function Select(s: seq<Reading>, b: Bound): (r: RangeResult)
    ensures r.Incomparable? ==> exists i :: 0 <= i < |s| && s[i].timestamp.None?
    ensures r.Matched? ==> |r.readings| <= |s|
    ensures r.Matched? ==> forall x :: x in r.readings ==>
      x in s && x.timestamp.Some? && Passes(x.timestamp.value, b)
  {
    if s == [] then Matched([])
    else match s[0].timestamp
      case None => Incomparable
      case Some(t) =>
        assert forall x :: x in s[1..] ==> x in s;
        match Select(s[1..], b)
        case Incomparable =>
          assert exists i :: 0 <= i < |s| - 1 && s[1..][i].timestamp.None?;
          Incomparable
        case Matched(rest) => Matched(if Passes(t, b) then [s[0]] + rest else rest)
  }

  /** Whether at least one end of the window is given. */
  predicate Bounded(start: Option<Time>, end: Option<Time>) { start.Some? || end.Some? }

  /** Whether one reading falls in the window; with no bound at all, every reading does. */
  predicate InWindow(r: Reading, start: Option<Time>, end: Option<Time>) {
    || !Bounded(start, end)
    || (&& r.timestamp.Some?
        && (start.Some? ==> start.value <= r.timestamp.value)
        && (end.Some? ==> r.timestamp.value <= end.value))
  }

  /**
   * The time-range filter as the store runs it: first the lower bound over the
   * snapshot, then the upper bound over what survived, each only when given.
   */
  function ByTimeRange(s: seq<Reading>, start: Option<Time>, end: Option<Time>): (r: RangeResult)
    ensures r.Incomparable? ==> Bounded(start, end)
    ensures r.Matched? ==> |r.readings| <= |s|
    ensures r.Matched? ==> forall x :: x in r.readings ==> x in s && InWindow(x, start, end)
  {
    var afterStart := if start.Some? then Select(s, From(start.value)) else Matched(s);
    match afterStart
    case Incomparable => Incomparable
    case Matched(rs) => if end.Some? then Select(rs, Until(end.value)) else Matched(rs)
  }

  predicate AllStamped(s: seq<Reading>) {
    forall i :: 0 <= i < |s| ==> s[i].timestamp.Some?
  }

  /** `a` is `b` with some elements left out, the rest kept in order. */
  predicate SubsequenceOf<T(==)>(a: seq<T>, b: seq<T>)
    decreases |b|
  {
    || a == []
    || (&& b != []
        && ((a[0] == b[0] && SubsequenceOf(a[1..], b[1..])) || SubsequenceOf(a, b[1..])))
  }

  /**
   * Reference definition of the filter, one reading at a time: exactly the
   * readings of `s` in the window, in arrival order.
   */
  function Where(s: seq<Reading>, start: Option<Time>, end: Option<Time>): (r: seq<Reading>)
    ensures |r| <= |s|
    ensures forall x :: x in r ==> x in s && InWindow(x, start, end)
    ensures forall x :: x in s && InWindow(x, start, end) ==> x in r
    ensures forall x :: multiset(r)[x] == if InWindow(x, start, end) then multiset(s)[x] else 0
    ensures SubsequenceOf(r, s)
  {
    if s == [] then []
    else
      var rest := Where(s[1..], start, end);
      assert s == [s[0]] + s[1..];
      assert forall x :: x in s ==> x == s[0] || x in s[1..];
      if InWindow(s[0], start, end) then [s[0]] + rest else rest
  }

  lemma {:induction false} SelectSpec(s: seq<Reading>, b: Bound)
    ensures Select(s, b).Incomparable? <==> !AllStamped(s)
    ensures Select(s, b).Matched? ==>
      Select(s, b).readings == SelectWhere(s, b)
  {
    if s != [] {
      SelectSpec(s[1..], b);
      assert AllStamped(s) <==> s[0].timestamp.Some? && AllStamped(s[1..]) by {
        if s[0].timestamp.Some? && AllStamped(s[1..]) {
          forall i | 0 <= i < |s| ensures s[i].timestamp.Some? {
            if i > 0 { assert s[i] == s[1..][i - 1]; }
          }
        }
        if AllStamped(s) {
          forall i | 0 <= i < |s| - 1 ensures s[1..][i].timestamp.Some? {
            assert s[1..][i] == s[i + 1];
          }
        }
      }
    }
  }

  /** The readings whose timestamp passes the bound `b`, skipping unstamped ones (which `Select` would fail on). */
  function SelectWhere(s: seq<Reading>, b: Bound): seq<Reading>
  {
    if s == [] then []
    else
      var rest := SelectWhere(s[1..], b);
      if s[0].timestamp.Some? && Passes(s[0].timestamp.value, b) then [s[0]] + rest else rest
  }

  lemma {:induction false} SelectWhereTwice(s: seq<Reading>, lo: Time, hi: Time)
    ensures SelectWhere(SelectWhere(s, From(lo)), Until(hi))
         == Where(s, Some(lo), Some(hi))
  {
    if s != [] { SelectWhereTwice(s[1..], lo, hi); }
  }

  lemma {:induction false} SelectWhereOnce(s: seq<Reading>, start: Option<Time>, end: Option<Time>)
    requires start.Some? != end.Some?
    ensures start.Some? ==> SelectWhere(s, From(start.value)) == Where(s, start, end)
    ensures end.Some? ==> SelectWhere(s, Until(end.value)) == Where(s, start, end)
  {
    if s != [] { SelectWhereOnce(s[1..], start, end); }
  }

  lemma {:induction false} SelectWhereStamped(s: seq<Reading>, b: Bound)
    ensures AllStamped(SelectWhere(s, b))
  {
    if s != [] {
      SelectWhereStamped(s[1..], b);
      var rest := SelectWhere(s[1..], b);
      if s[0].timestamp.Some? && Passes(s[0].timestamp.value, b) {
        forall i | 0 <= i < |rest| + 1 ensures ([s[0]] + rest)[i].timestamp.Some? {
          if i > 0 { assert ([s[0]] + rest)[i] == rest[i - 1]; }
        }
      }
    }
  }

  /**
   * The store's two-pass filter fails exactly when a bound is given and some
   * stored reading has no timestamp; otherwise it returns the reference
   * filter's result. With no bound it is the whole snapshot.
   */
  lemma RangeMatchesWhere(s: seq<Reading>, start: Option<Time>, end: Option<Time>)
    ensures ByTimeRange(s, start, end).Incomparable? <==> Bounded(start, end) && !AllStamped(s)
    ensures ByTimeRange(s, start, end).Matched? ==>
      ByTimeRange(s, start, end).readings == Where(s, start, end)
    ensures !Bounded(start, end) ==> ByTimeRange(s, start, end) == Matched(s)
  {
    if start.Some? {
      var lower := From(start.value);
      SelectSpec(s, lower);
      if end.Some? {
        var upper := Until(end.value);
        if Select(s, lower).Matched? {
          var rs := Select(s, lower).readings;
          SelectWhereStamped(s, lower);
          SelectSpec(rs, upper);
          SelectWhereTwice(s, start.value, end.value);
        }
      } else {
        SelectWhereOnce(s, start, end);
      }
    } else if end.Some? {
      SelectSpec(s, Until(end.value));
      SelectWhereOnce(s, start, end);
    } else {
      WhereUnbounded(s, start, end);
    }
  }

  lemma {:induction false} WhereUnbounded(s: seq<Reading>, start: Option<Time>, end: Option<Time>)
    requires !Bounded(start, end)
    ensures Where(s, start, end) == s
  {
    if s != [] { WhereUnbounded(s[1..], start, end); }
  }

  /** A window whose start lies after its end matches nothing. */
  lemma ReversedWindowIsEmpty(s: seq<Reading>, start: Time, end: Time)
    requires start > end
    ensures Where(s, Some(start), Some(end)) == []
  {
  }

  // ---------------------------------------------------------------------------
  // Aggregates
  // ---------------------------------------------------------------------------

  // The numeric columns the statistics are computed from, one value per reading.
  function Temps(s: seq<Reading>): seq<real> { seq(|s|, i requires 0 <= i < |s| => s[i].data.temp) }
  function Humidities(s: seq<Reading>): seq<real> { seq(|s|, i requires 0 <= i < |s| => s[i].data.humidity) }
  function WindSpeeds(s: seq<Reading>): seq<real> { seq(|s|, i requires 0 <= i < |s| => s[i].data.windSpeedAvg) }
  function WindMaxes(s: seq<Reading>): seq<real> { seq(|s|, i requires 0 <= i < |s| => s[i].data.windSpeedMax) }
  function Rain(s: seq<Reading>): seq<real> { seq(|s|, i requires 0 <= i < |s| => s[i].data.rainAccumulated) }

  /** Python's `sum`: a left-to-right running total from zero. */
  function Sum(xs: seq<real>): real
  {
    if xs == [] then 0.0 else Sum(xs[..|xs| - 1]) + xs[|xs| - 1]
  }

  /** Python's `max`: the largest element, an element of `xs`. */
  function Maximum(xs: seq<real>): (m: real)
    requires xs != []
    ensures m in xs
    ensures forall i :: 0 <= i < |xs| ==> xs[i] <= m
  {
    if |xs| == 1 then xs[0]
    else
      var m := Maximum(xs[..|xs| - 1]);
      assert forall i :: 0 <= i < |xs| - 1 ==> xs[i] == xs[..|xs| - 1][i];
      if xs[|xs| - 1] > m then xs[|xs| - 1] else m
  }

  /** Python's `min`: the smallest element, an element of `xs`. */
  function Minimum(xs: seq<real>): (m: real)
    requires xs != []
    ensures m in xs
    ensures forall i :: 0 <= i < |xs| ==> m <= xs[i]
  {
    if |xs| == 1 then xs[0]
    else
      var m := Minimum(xs[..|xs| - 1]);
      assert forall i :: 0 <= i < |xs| - 1 ==> xs[i] == xs[..|xs| - 1][i];
      if xs[|xs| - 1] < m then xs[|xs| - 1] else m
  }

  function Mean(xs: seq<real>): real
    requires xs != []
  {
    Sum(xs) / (|xs| as real)
  }

  lemma {:induction false} SumAtMost(xs: seq<real>, b: real)
    requires forall i :: 0 <= i < |xs| ==> xs[i] <= b
    ensures Sum(xs) <= (|xs| as real) * b
  {
    if xs != [] {
      var p := xs[..|xs| - 1];
      assert forall i :: 0 <= i < |p| ==> p[i] == xs[i];
      SumAtMost(p, b);
    }
  }

  lemma {:induction false} SumAtLeast(xs: seq<real>, b: real)
    requires forall i :: 0 <= i < |xs| ==> b <= xs[i]
    ensures (|xs| as real) * b <= Sum(xs)
  {
    if xs != [] {
      var p := xs[..|xs| - 1];
      assert forall i :: 0 <= i < |p| ==> p[i] == xs[i];
      SumAtLeast(p, b);
    }
  }

  lemma QuotientAtMost(a: real, n: real, b: real)
    requires 0.0 < n && a <= n * b
    ensures a / n <= b
  {
    assert a / n * n == a;
  }

  lemma QuotientAtLeast(a: real, n: real, b: real)
    requires 0.0 < n && n * b <= a
    ensures b <= a / n
  {
    assert a / n * n == a;
  }

  /** A mean lies between the minimum and the maximum. */
  lemma MeanBetween(xs: seq<real>)
    requires xs != []
    ensures Minimum(xs) <= Mean(xs) <= Maximum(xs)
  {
    var n := |xs| as real;
    SumAtMost(xs, Maximum(xs));
    SumAtLeast(xs, Minimum(xs));
    QuotientAtMost(Sum(xs), n, Maximum(xs));
    QuotientAtLeast(Sum(xs), n, Minimum(xs));
  }

  /** A mean of values inside [lo, hi] is inside [lo, hi]. */
  lemma MeanWithin(xs: seq<real>, lo: real, hi: real)
    requires xs != []
    requires forall i :: 0 <= i < |xs| ==> lo <= xs[i] <= hi
    ensures lo <= Mean(xs) <= hi
  {
    MeanBetween(xs);
    assert lo <= Minimum(xs) && Maximum(xs) <= hi by {
      var a :| 0 <= a < |xs| && xs[a] == Minimum(xs);
      var b :| 0 <= b < |xs| && xs[b] == Maximum(xs);
    }
  }

  /** A total of non-negative values is non-negative. */
  lemma {:induction false} SumNonNegative(xs: seq<real>)
    requires forall i :: 0 <= i < |xs| ==> 0.0 <= xs[i]
    ensures 0.0 <= Sum(xs)
  {
    SumAtLeast(xs, 0.0);
  }

  /**
   * The statistics of a snapshot: on an empty one only the count (zero); on a
   * non-empty one every field, the first and last timestamps being those of
   * the oldest and the newest reading.
   */
  function ComputeStats(s: seq<Reading>): (st: Stats)
    ensures st.totalReadings == |s|
    ensures s == [] <==> OnlyCount(st)
    ensures s != [] ==> st.firstReading == s[0].timestamp && st.lastReading == s[|s| - 1].timestamp
  {
    if s == [] then CountOnly(0)
    else
      var temps := Temps(s);
      Stats(
        |s|,
        Some(Mean(temps)), Some(Maximum(temps)), Some(Minimum(temps)),
        Some(Mean(Humidities(s))),
        Some(Mean(WindSpeeds(s))),
        Some(Maximum(WindMaxes(s))),
        Some(Sum(Rain(s))),
        s[0].timestamp, s[|s| - 1].timestamp)
  }

  /**
   * On a non-empty snapshot the mean temperature lies between the minimum and
   * the maximum, and every reading's temperature lies between those two.
   */
  lemma StatsTemperatureOrdered(s: seq<Reading>)
    requires s != []
    ensures var st := ComputeStats(s);
      && st.minTemp.value <= st.avgTemp.value <= st.maxTemp.value
      && (forall i :: 0 <= i < |s| ==> st.minTemp.value <= s[i].data.temp <= st.maxTemp.value)
  {
    var temps := Temps(s);
    MeanBetween(temps);
    forall i | 0 <= i < |s| ensures Minimum(temps) <= s[i].data.temp <= Maximum(temps) {
      assert temps[i] == s[i].data.temp;
    }
  }

  /**
   * On a non-empty snapshot the maximum wind speed is one reading's and bounds
   * every other, and the total rain is the sum of the accumulated rain.
   */
  lemma StatsWindAndRain(s: seq<Reading>)
    requires s != []
    ensures var st := ComputeStats(s);
      && (exists i :: 0 <= i < |s| && s[i].data.windSpeedMax == st.maxWindSpeed.value)
      && (forall i :: 0 <= i < |s| ==> s[i].data.windSpeedMax <= st.maxWindSpeed.value)
      && st.totalRain.value == Sum(Rain(s))
  {
    var winds := WindMaxes(s);
    var w := Maximum(winds);
    var k :| 0 <= k < |winds| && winds[k] == w;
    assert s[k].data.windSpeedMax == w;
    forall i | 0 <= i < |s| ensures s[i].data.windSpeedMax <= w {
      assert winds[i] == s[i].data.windSpeedMax;
    }
  }

  /** A single reading is its own average, minimum and maximum. */
  lemma StatsOfOne(r: Reading)
    ensures var st := ComputeStats([r]);
      && st.totalReadings == 1
      && st.avgTemp == st.minTemp == st.maxTemp == Some(r.data.temp)
      && st.avgHumidity == Some(r.data.humidity)
      && st.avgWindSpeed == Some(r.data.windSpeedAvg)
      && st.maxWindSpeed == Some(r.data.windSpeedMax)
      && st.totalRain == Some(r.data.rainAccumulated)
      && st.firstReading == st.lastReading == r.timestamp
  {
    var s := [r];
    assert Temps(s) == [r.data.temp];
    assert Humidities(s) == [r.data.humidity];
    assert WindSpeeds(s) == [r.data.windSpeedAvg];
    assert WindMaxes(s) == [r.data.windSpeedMax];
    assert Rain(s) == [r.data.rainAccumulated];
    SumOfOne(r.data.temp);
    SumOfOne(r.data.humidity);
    SumOfOne(r.data.windSpeedAvg);
    SumOfOne(r.data.rainAccumulated);
  }

  lemma SumOfOne(a: real)
    ensures Sum([a]) == a
  {
    assert [a][..0] == [];
  }

  /**
   * Over readings that passed validation, the aggregates respect the field
   * bounds: total rain and wind speeds are non-negative and the mean humidity
   * is a percentage.
   */
  lemma StatsOfValidReadings(s: seq<Reading>)
    requires s != [] && AllValid(s)
    ensures var st := ComputeStats(s);
      && 0.0 <= st.totalRain.value
      && 0.0 <= st.avgWindSpeed.value
      && 0.0 <= st.maxWindSpeed.value
      && Percentage(st.avgHumidity.value)
  {
    SumNonNegative(Rain(s));
    MeanWithin(Humidities(s), 0.0, 100.0);
    SumNonNegative(WindSpeeds(s));
    var ws := WindSpeeds(s);
    assert 0.0 <= Sum(ws) / (|ws| as real);
    assert Maximum(WindMaxes(s)) >= WindMaxes(s)[0];
  }

  /** A reading with the given temperature and accumulated rain, every other field zero. */
  function SampleWith(temp: real, rain: real): Reading {
    Reading(Measurements(
      0.0, 0.0, temp, 0.0, 0.0, 0.0, 0.0, rain, 0.0, 0.0, 0.0, 0.0,
      0.0, 0.0, 0.0, 0.0, 0.0, 0.0, 0.0, 0, 0.0, 0.0, 0.0), None)
  }

  lemma SumOfThree(a: real, b: real, c: real)
    ensures Sum([a, b, c]) == a + b + c
  {
    assert [a, b, c][..2] == [a, b] && [a, b][..1] == [a] && [a][..0] == [];
    assert Sum([a]) == a;
    assert Sum([a, b]) == a + b;
  }

  /** Temperatures 10, 20, 30 with rain 0, 5, 0: three readings, mean 20, range 10..30, rain 5. */
  lemma StatsScenario()
    ensures var st := ComputeStats([SampleWith(10.0, 0.0), SampleWith(20.0, 5.0), SampleWith(30.0, 0.0)]);
      && st.totalReadings == 3
      && st.avgTemp == Some(20.0) && st.maxTemp == Some(30.0) && st.minTemp == Some(10.0)
      && st.totalRain == Some(5.0)
  {
    var s := [SampleWith(10.0, 0.0), SampleWith(20.0, 5.0), SampleWith(30.0, 0.0)];
    assert Temps(s) == [10.0, 20.0, 30.0];
    assert Rain(s) == [0.0, 5.0, 0.0];
    SumOfThree(10.0, 20.0, 30.0);
    SumOfThree(0.0, 5.0, 0.0);
    assert [10.0, 20.0, 30.0][..2] == [10.0, 20.0] && [10.0, 20.0][..1] == [10.0];
  }

  // ---------------------------------------------------------------------------
  // The store
  // ---------------------------------------------------------------------------

  class WeatherDataStore {
    const maxReadings: nat
    /** The readings held, oldest first. */
    var readings: seq<Reading>
    var mqttConnected: bool

    ghost predicate Valid()
      reads this
    {
      |readings| <= maxReadings
    }

    constructor (maxReadings: nat)
      ensures Valid()
      ensures this.maxReadings == maxReadings && readings == [] && !mqttConnected
    {
      this.maxReadings := maxReadings;
      readings := [];
      mqttConnected := false;
    }

    method AddReading(r: Reading)
      requires Valid()
      modifies this`readings
      ensures Valid()
      ensures readings == Appended(old(readings), maxReadings, r)
    {
      readings := Trim(readings + [r], maxReadings);
    }

    method GetLatest(limit: int) returns (rs: seq<Reading>)
      ensures rs == Latest(readings, limit)
    {
      rs := readings[SliceStart(-limit, |readings|)..];
    }

    method GetAll() returns (rs: seq<Reading>)
      ensures rs == readings
    {
      rs := readings;
    }

    method GetByTimeRange(start: Option<Time>, end: Option<Time>) returns (res: RangeResult)
      ensures res == ByTimeRange(readings, start, end)
    {
      res := ByTimeRange(readings, start, end);
    }

    method GetStats() returns (st: Stats)
      ensures st == ComputeStats(readings)
    {
      st := ComputeStats(readings);
    }

    method Count() returns (n: nat)
      ensures n == |readings|
    {
      n := |readings|;
    }

    method Clear()
      requires Valid()
      modifies this`readings
      ensures Valid() && readings == []
    {
      readings := [];
    }
  }
}

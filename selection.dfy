/**
 The selected-boroughs list of app.py as a value: its records, the toggle a map click
 performs, the removal a card's close button performs, and the list of names handed to
 the charts.
 */
module Selection {
  import opened Boroughs

  /** One selected borough: a snapshot of the click payload plus the borough's ranks. */
  datatype Record = Record(name: Borough, listings: int, tourism: int, crimeRank: int, investmentRank: int)

  /** The payload of a map click: the borough name and the listings and tourism values shown at that point. */
  datatype Click = Click(borough: string, listings: int, tourism: int)

  /** The record a click on a known borough creates (app.py:402-413). */
  function MakeRecord(b: Borough, listings: int, tourism: int): (r: Record)
    ensures r.name == b && r.listings == listings && r.tourism == tourism
    ensures RanksFromTable([r])
  {
    Record(b, listings, tourism, Ranks(b).crimeRank, Ranks(b).investmentRank)
  }

  /** No borough occurs twice in the list. */
  ghost predicate UniqueNames(s: seq<Record>)
  {
    forall i, j :: 0 <= i < j < |s| ==> s[i].name != s[j].name
  }

  /** Every record carries the ranks BOROUGH_RANKS gives its borough. */
  ghost predicate RanksFromTable(s: seq<Record>)
  {
    forall i :: 0 <= i < |s| ==>
      s[i].crimeRank == Ranks(s[i].name).crimeRank && s[i].investmentRank == Ranks(s[i].name).investmentRank
  }

  /** Whether some record of the list is for the borough named `t` (app.py:416). */
  function HasName(s: seq<Record>, t: string): (r: bool)
    ensures r <==> exists i :: 0 <= i < |s| && BoroughName(s[i].name) == t
  {
    if s == [] then false
    else BoroughName(s[0].name) == t || HasName(s[1..], t)
  }

  /** The records whose borough is not the one named `t`, in order (app.py:417, 506). */
  function Without(s: seq<Record>, t: string): (r: seq<Record>)
    ensures |r| <= |s|
    ensures forall x :: x in r <==> x in s && BoroughName(x.name) != t
  {
    if s == [] then []
    else if BoroughName(s[0].name) == t then Without(s[1..], t)
    else [s[0]] + Without(s[1..], t)
  }

  /** The borough names of the records, in order: what the chart builders receive (app.py:480). */
  function Names(s: seq<Record>): (r: seq<string>)
    ensures |r| == |s|
    ensures forall i :: 0 <= i < |s| ==> r[i] == BoroughName(s[i].name)
  {
    if s == [] then [] else [BoroughName(s[0].name)] + Names(s[1..])
  }

  /** The new list after a click on a known borough whose fresh record is `rec` (app.py:416-419). */
  function Toggled(s: seq<Record>, rec: Record): (r: seq<Record>)
    ensures HasName(r, BoroughName(rec.name)) <==> !HasName(s, BoroughName(rec.name))
    ensures |r| <= |s| + 1
  {
    var t := BoroughName(rec.name);
    if HasName(s, t) then Without(s, t)
    else
      assert (s + [rec])[|s|] == rec;
      s + [rec]
  }

  /** The boroughs of the list, as a set. */
  function NameSet(s: seq<Record>): (r: set<Borough>)
    ensures forall b :: b in r <==> exists i :: 0 <= i < |s| && s[i].name == b
  {
    if s == [] then {} else {s[0].name} + NameSet(s[1..])
  }

  // ---------------------------------------------------------------------------
  // Removal

  /** Removal keeps order: it distributes over concatenation. */
  lemma {:induction false} WithoutConcat(s: seq<Record>, u: seq<Record>, t: string)
    ensures Without(s + u, t) == Without(s, t) + Without(u, t)
  {
    if s == [] {
      assert s + u == u;
    } else {
      assert (s + u)[0] == s[0];
      assert (s + u)[1..] == s[1..] + u;
      WithoutConcat(s[1..], u, t);
    }
  }

  /** A name that is absent is a no-op to remove. */
  lemma {:induction false} WithoutAbsent(s: seq<Record>, t: string)
    requires !HasName(s, t)
    ensures Without(s, t) == s
  {
    if s != [] {
      WithoutAbsent(s[1..], t);
    }
  }

  /** Removing the same borough twice is the same as removing it once. */
  lemma WithoutIdempotent(s: seq<Record>, t: string)
    ensures Without(Without(s, t), t) == Without(s, t)
  {
  }

  /** Removal keeps uniqueness and the table ranks. */
  lemma WithoutKeepsInvariant(s: seq<Record>, t: string)
    requires UniqueNames(s) && RanksFromTable(s)
    ensures UniqueNames(Without(s, t)) && RanksFromTable(Without(s, t))
  {
    UniqueSubsequence(s, t);
    var r := Without(s, t);
    forall i | 0 <= i < |r|
      ensures r[i].crimeRank == Ranks(r[i].name).crimeRank && r[i].investmentRank == Ranks(r[i].name).investmentRank
    {
      assert r[i] in s;
    }
  }

  /** The chart filter after a removal is the old one with that name dropped, order kept. */
  lemma {:induction false} NamesWithout(s: seq<Record>, t: string)
    ensures Names(Without(s, t)) == RemoveName(Names(s), t)
  {
    if s != [] {
      NamesWithout(s[1..], t);
      assert Names(s)[1..] == Names(s[1..]);
    }
  }

  /** The names other than `t`, in order. */
  function RemoveName(ns: seq<string>, t: string): seq<string>
  {
    if ns == [] then [] else (if ns[0] == t then [] else [ns[0]]) + RemoveName(ns[1..], t)
  }

  // ---------------------------------------------------------------------------
  // Toggle

  /**
   A click on an unselected borough appends exactly one record: the clicked borough with the
   payload's listings and tourism and the table's ranks. The records before it are untouched.
   */
  lemma ToggleOn(s: seq<Record>, b: Borough, listings: int, tourism: int)
    requires !HasName(s, BoroughName(b))
    ensures var r := Toggled(s, MakeRecord(b, listings, tourism));
      && |r| == |s| + 1 && r[..|s|] == s
      && r[|s|].name == b && r[|s|].listings == listings && r[|s|].tourism == tourism
      && r[|s|].crimeRank == Ranks(b).crimeRank && r[|s|].investmentRank == Ranks(b).investmentRank
  {
  }

  /**
   A click on a selected borough removes every record of that borough and keeps every
   other record, in its original relative order.
   */
  lemma ToggleOff(s: seq<Record>, rec: Record)
    requires HasName(s, BoroughName(rec.name))
    ensures Toggled(s, rec) == Without(s, BoroughName(rec.name))
    ensures |Toggled(s, rec)| < |s|
    ensures forall x :: x in Toggled(s, rec) <==> x in s && x.name != rec.name
  {
    var t := BoroughName(rec.name);
    WithoutShorter(s, t);
    forall x ensures x in Without(s, t) <==> x in s && x.name != rec.name {
      BoroughNameInjective(x.name, rec.name);
    }
  }

  /** Removing a borough that is selected shortens the list. */
  lemma {:induction false} WithoutShorter(s: seq<Record>, t: string)
    requires HasName(s, t)
    ensures |Without(s, t)| < |s|
  {
    if BoroughName(s[0].name) != t {
      WithoutShorter(s[1..], t);
    }
  }

  /** HasName by borough name agrees with membership of the borough in NameSet. */
  lemma HasNameSet(s: seq<Record>, b: Borough)
    ensures HasName(s, BoroughName(b)) <==> b in NameSet(s)
  {
  }

  /**
   Toggling flips the membership of the clicked borough and leaves every other borough's
   membership alone.
   */
  lemma ToggleMembership(s: seq<Record>, rec: Record, b: Borough)
    ensures b in NameSet(Toggled(s, rec)) <==> ((b in NameSet(s)) != (b == rec.name))
  {
    var t := BoroughName(rec.name);
    HasNameSet(s, rec.name);
    if HasName(s, t) {
      var r := Without(s, t);
      BoroughNameInjective(b, rec.name);
      if b in NameSet(r) {
        var i :| 0 <= i < |r| && r[i].name == b;
        assert r[i] in r;
      }
      if b in NameSet(s) && b != rec.name {
        var i :| 0 <= i < |s| && s[i].name == b;
        assert s[i] in r;
      }
    } else {
      var r := s + [rec];
      if b in NameSet(s) {
        var i :| 0 <= i < |s| && s[i].name == b;
        assert r[i].name == b;
      }
      assert r[|s|].name == rec.name;
      if b in NameSet(r) && b != rec.name {
        var i :| 0 <= i < |r| && r[i].name == b;
        assert i < |s| && r[i] == s[i];
      }
    }
  }

  /** Unique names with table ranks stay so across a toggle, and the list never grows past five. */
  lemma ToggleKeepsInvariant(s: seq<Record>, rec: Record)
    requires UniqueNames(s) && RanksFromTable(s)
    requires rec.crimeRank == Ranks(rec.name).crimeRank && rec.investmentRank == Ranks(rec.name).investmentRank
    ensures UniqueNames(Toggled(s, rec)) && RanksFromTable(Toggled(s, rec))
    ensures 0 <= |Toggled(s, rec)| <= 5
  {
    ToggleKeepsUnique(s, rec);
    var t := BoroughName(rec.name);
    if HasName(s, t) {
      WithoutKeepsInvariant(s, t);
    }
    UniqueAtMostFive(Toggled(s, rec));
  }

  /** With unique names the list has as many records as boroughs, hence at most five. */
  lemma {:induction false} UniqueCardinality(s: seq<Record>)
    requires UniqueNames(s)
    ensures |NameSet(s)| == |s|
  {
    if s != [] {
      UniqueCardinality(s[1..]);
      assert s[0].name !in NameSet(s[1..]) by {
        forall i | 0 <= i < |s[1..]| ensures s[1..][i].name != s[0].name {
          assert s[1..][i] == s[i + 1];
        }
      }
    }
  }

  /** A list with unique names holds at most five records. */
  lemma UniqueAtMostFive(s: seq<Record>)
    requires UniqueNames(s)
    ensures |s| <= 5
  {
    UniqueCardinality(s);
    forall b | b in NameSet(s) ensures b in AllBoroughs {
      AllBoroughsComplete(b);
    }
    SubsetCardinality(NameSet(s), AllBoroughs);
    AllBoroughsComplete(Manhattan);
  }

  lemma {:induction false} SubsetCardinality(a: set<Borough>, b: set<Borough>)
    requires a <= b
    ensures |a| <= |b|
    decreases |a|
  {
    if a != {} {
      var x :| x in a;
      SubsetCardinality(a - {x}, b - {x});
    }
  }

  /** Clicking an unselected borough twice gives back the original list. */
  lemma ToggleTwice(s: seq<Record>, rec: Record)
    requires !HasName(s, BoroughName(rec.name))
    ensures Toggled(Toggled(s, rec), rec) == s
  {
    var t := BoroughName(rec.name);
    assert HasName(s + [rec], t) by {
      assert BoroughName((s + [rec])[|s|].name) == t;
    }
    WithoutConcat(s, [rec], t);
    WithoutAbsent(s, t);
  }

  // ---------------------------------------------------------------------------
  // Sequences of clicks

  /** The list after clicking, one after the other, the boroughs whose fresh records are `recs`. */
  function ApplyToggles(s: seq<Record>, recs: seq<Record>): (r: seq<Record>)
    ensures |r| <= |s| + |recs|
    decreases |recs|
  {
    if recs == [] then s else ApplyToggles(Toggled(s, recs[0]), recs[1..])
  }

  /** How many of the clicks in `recs` were on borough `b`. */
  function ClickCount(recs: seq<Record>, b: Borough): nat
  {
    if recs == [] then 0 else (if recs[0].name == b then 1 else 0) + ClickCount(recs[1..], b)
  }

  /**
   A run of clicks flips a borough's membership once per click on it: starting from the
   empty list, a borough ends up selected exactly when it was clicked an odd number of times.
   */
  lemma {:induction false} ToggleParity(s: seq<Record>, recs: seq<Record>, b: Borough)
    ensures b in NameSet(ApplyToggles(s, recs)) <==> ((b in NameSet(s)) != (ClickCount(recs, b) % 2 == 1))
    decreases |recs|
  {
    if recs != [] {
      var next := Toggled(s, recs[0]);
      assert ApplyToggles(s, recs) == ApplyToggles(next, recs[1..]);
      var n := ClickCount(recs[1..], b);
      assert ClickCount(recs, b) == (if recs[0].name == b then 1 else 0) + n;
      ToggleStep(s, recs[0], b, n, ClickCount(recs, b));
      ToggleParity(next, recs[1..], b);
    }
  }

  /** One click on `rec`'s borough followed by `n` more clicks on `b`, `c` clicks on `b` in all: the parities combine. */
  lemma ToggleStep(s: seq<Record>, rec: Record, b: Borough, n: nat, c: nat)
    requires c == (if rec.name == b then 1 else 0) + n
    ensures ((b in NameSet(Toggled(s, rec))) != (n % 2 == 1)) <==> ((b in NameSet(s)) != (c % 2 == 1))
  {
    assert (n + 1) % 2 == 1 <==> n % 2 != 1;
    ToggleMembership(s, rec, b);
  }

  /** After any run of clicks from a list with unique names, the list holds one record per selected borough. */
  lemma {:induction false} ApplyTogglesUnique(s: seq<Record>, recs: seq<Record>)
    requires UniqueNames(s)
    ensures UniqueNames(ApplyToggles(s, recs))
    ensures |ApplyToggles(s, recs)| == |NameSet(ApplyToggles(s, recs))|
    decreases |recs|
  {
    if recs != [] {
      ToggleKeepsUnique(s, recs[0]);
      ApplyTogglesUnique(Toggled(s, recs[0]), recs[1..]);
    }
    UniqueCardinality(ApplyToggles(s, recs));
  }

  /** Uniqueness alone is kept by a toggle, whatever the ranks. */
  lemma ToggleKeepsUnique(s: seq<Record>, rec: Record)
    requires UniqueNames(s)
    ensures UniqueNames(Toggled(s, rec))
  {
    var t := BoroughName(rec.name);
    if HasName(s, t) {
      UniqueSubsequence(s, t);
    } else {
      var r := s + [rec];
      forall i, j | 0 <= i < j < |r| ensures r[i].name != r[j].name {
        if j == |s| {
          assert BoroughName(s[i].name) != t;
        }
      }
    }
  }

  lemma {:induction false} UniqueSubsequence(s: seq<Record>, t: string)
    requires UniqueNames(s)
    ensures UniqueNames(Without(s, t))
  {
    if s != [] {
      UniqueSubsequence(s[1..], t);
      if BoroughName(s[0].name) != t {
        var r := [s[0]] + Without(s[1..], t);
        forall j | 0 < j < |r| ensures r[0].name != r[j].name {
          assert r[j] in Without(s[1..], t);
          var k :| 0 <= k < |s[1..]| && s[1..][k] == r[j];
          assert s[0].name != s[k + 1].name;
        }
      }
    }
  }

  /** The boroughs clicked an odd number of times in `recs`. */
  function OddClicked(recs: seq<Record>): set<Borough>
  {
    set b | b in AllBoroughs && ClickCount(recs, b) % 2 == 1
  }

  /** From the empty list, the list holds exactly one record per borough clicked an odd number of times. */
  lemma SizeAfterClicks(recs: seq<Record>)
    ensures NameSet(ApplyToggles([], recs)) == OddClicked(recs)
    ensures |ApplyToggles([], recs)| == |OddClicked(recs)|
  {
    var odd := OddClicked(recs);
    forall b ensures b in NameSet(ApplyToggles([], recs)) <==> b in odd {
      ToggleParity([], recs, b);
      AllBoroughsComplete(b);
    }
    assert NameSet(ApplyToggles([], recs)) == odd;
    ApplyTogglesUnique([], recs);
    assert |ApplyToggles([], recs)| == |odd|;
  }
}

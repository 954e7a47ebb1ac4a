/**
 The views app.py derives from the selected-boroughs list after every change: the cards
 sorted by investment rank (generate_borough_cards), the "best investment" panel, and the
 names that restrict the charts.
 */
module Views {
  import opened Options
  import opened Boroughs
  import opened Selection

  // ---------------------------------------------------------------------------
  // Best investment (app.py:421-425): a dictionary from borough to investment rank is built
  // over the list, the key of its first item of least rank is taken, and the first record of
  // that borough is shown.

  /** One item of the name-to-rank dictionary. */
  datatype Entry = Entry(name: Borough, rank: int)

  /** The keys of a dictionary held as its items in insertion order. */
  function KeySet(d: seq<Entry>): set<Borough>
  {
    if d == [] then {} else {d[0].name} + KeySet(d[1..])
  }

  /** Setting key `k` to `v`: an existing key keeps its place and takes the new value; a new key goes last. */
  function Upsert(d: seq<Entry>, k: Borough, v: int): (r: seq<Entry>)
    ensures KeySet(r) == KeySet(d) + {k}
    ensures exists i :: 0 <= i < |r| && r[i] == Entry(k, v)
  {
    if d == [] then [Entry(k, v)]
    else if d[0].name == k then [Entry(k, v)] + d[1..]
    else
      var rest := Upsert(d[1..], k, v);
      var i :| 0 <= i < |rest| && rest[i] == Entry(k, v);
      assert ([d[0]] + rest)[i + 1] == Entry(k, v);
      [d[0]] + rest
  }

  /** The dictionary comprehension, run over `s` from left to right, starting from `d`. */
  function RankDictFrom(d: seq<Entry>, s: seq<Record>): (r: seq<Entry>)
    ensures KeySet(r) == KeySet(d) + NameSet(s)
    decreases |s|
  {
    if s == [] then d else RankDictFrom(Upsert(d, s[0].name, s[0].investmentRank), s[1..])
  }

  /** The dictionary from each selected borough to its investment rank, built over the list from its start (app.py:422). */
  function RankDict(s: seq<Record>): (r: seq<Entry>)
    ensures KeySet(r) == NameSet(s)
  {
    RankDictFrom([], s)
  }

  /**
   The position of the item Python's `min` returns: an item of least rank, and the first
   such in iteration order.
   */
  function MinRankIndex(d: seq<Entry>): (i: nat)
    requires d != []
    ensures i < |d|
    ensures forall j :: 0 <= j < |d| ==> d[i].rank <= d[j].rank
    ensures forall j :: 0 <= j < i ==> d[j].rank > d[i].rank
  {
    if |d| == 1 then 0
    else
      var m := MinRankIndex(d[1..]) + 1;
      if d[m].rank < d[0].rank then m else 0
  }

  /** The first record of borough `name`, or None when there is none (where Python would raise StopIteration; app.py:425). */
  function FirstNamed(s: seq<Record>, name: Borough): (r: Option<Record>)
    ensures r.None? <==> name !in NameSet(s)
    ensures r.Some? ==> exists i :: 0 <= i < |s| && s[i] == r.value && s[i].name == name
                                    && forall j :: 0 <= j < i ==> s[j].name != name
  {
    if s == [] then None
    else if s[0].name == name then Some(s[0])
    else
      var r := FirstNamed(s[1..], name);
      assert r.Some? ==> exists i :: 0 <= i < |s[1..]| && s[1..][i] == r.value && s[1..][i].name == name
                                    && forall j :: 0 <= j < i ==> s[1..][j].name != name;
      r
  }

  /** The best-investment record, or None for an empty selection. */
  function BestInvestment(s: seq<Record>): (r: Option<Record>)
    ensures r.Some? ==> r.value in s
  {
    if s == [] then None
    else
      var d := RankDict(s);
      assert s[0].name in KeySet(d);
      KeySetNonEmpty(d);
      FirstNamed(s, d[MinRankIndex(d)].name)
  }

  lemma {:induction false} KeySetNonEmpty(d: seq<Entry>)
    requires KeySet(d) != {}
    ensures d != []
  {
  }

  lemma {:induction false} KeySetMember(d: seq<Entry>, i: nat)
    requires i < |d|
    ensures d[i].name in KeySet(d)
  {
    if i > 0 {
      KeySetMember(d[1..], i - 1);
    }
  }

  /** `i` is the first position of least investment rank in `s`. */
  ghost predicate IsFirstMinimum(s: seq<Record>, i: int)
  {
    && 0 <= i < |s|
    && (forall j :: 0 <= j < |s| ==> s[i].investmentRank <= s[j].investmentRank)
    && (forall j :: 0 <= j < i ==> s[j].investmentRank > s[i].investmentRank)
  }

  /** There is no best investment exactly when nothing is selected. */
  lemma BestInvestmentNoneIff(s: seq<Record>)
    ensures BestInvestment(s).None? <==> s == []
  {
    if s != [] {
      var d := RankDict(s);
      KeySetNonEmpty(d);
      KeySetMember(d, MinRankIndex(d));
    }
  }

  /** The dictionary items of a list with unique names: one per record, in list order. */
  function Entries(s: seq<Record>): (r: seq<Entry>)
    ensures |r| == |s|
    ensures forall i :: 0 <= i < |s| ==> r[i] == Entry(s[i].name, s[i].investmentRank)
  {
    if s == [] then [] else [Entry(s[0].name, s[0].investmentRank)] + Entries(s[1..])
  }

  /** Setting a key that is not yet present appends it. */
  lemma {:induction false} UpsertAbsent(d: seq<Entry>, k: Borough, v: int)
    requires forall i :: 0 <= i < |d| ==> d[i].name != k
    ensures Upsert(d, k, v) == d + [Entry(k, v)]
  {
    if d != [] {
      UpsertAbsent(d[1..], k, v);
    }
  }

  /** Setting a key that is present: its first item takes the new value in its place, and every other item stays. */
  lemma {:induction false} UpsertPresent(d: seq<Entry>, k: Borough, v: int, i: int)
    requires 0 <= i < |d| && d[i].name == k && forall j :: 0 <= j < i ==> d[j].name != k
    ensures |Upsert(d, k, v)| == |d|
    ensures forall j :: 0 <= j < |d| ==> Upsert(d, k, v)[j] == if j == i then Entry(k, v) else d[j]
  {
    if i > 0 {
      var r := Upsert(d, k, v);
      var t := Upsert(d[1..], k, v);
      assert d[0].name != k;
      assert r == [d[0]] + t;
      UpsertPresent(d[1..], k, v, i - 1);
      forall j | 0 <= j < |d| ensures r[j] == if j == i then Entry(k, v) else d[j] {
        if j > 0 {
          assert r[j] == t[j - 1];
        }
      }
    }
  }

  /** With unique names the comprehension keeps every record, in order. */
  lemma {:induction false} RankDictFromUnique(p: seq<Record>, u: seq<Record>)
    requires UniqueNames(p + u)
    ensures RankDictFrom(Entries(p), u) == Entries(p + u)
    decreases |u|
  {
    if u == [] {
      assert p + u == p;
    } else {
      var x := u[0];
      EntriesSnoc(p, u);
      assert (p + [x]) + u[1..] == p + u;
      RankDictFromUnique(p + [x], u[1..]);
    }
  }

  /** One step of the comprehension over a list with unique names appends the next record's item. */
  lemma EntriesSnoc(p: seq<Record>, u: seq<Record>)
    requires UniqueNames(p + u) && u != []
    ensures Upsert(Entries(p), u[0].name, u[0].investmentRank) == Entries(p + [u[0]])
  {
    var x := u[0];
    forall i | 0 <= i < |Entries(p)| ensures Entries(p)[i].name != x.name {
      assert (p + u)[i] == p[i] && (p + u)[|p|] == x;
    }
    UpsertAbsent(Entries(p), x.name, x.investmentRank);
    assert Entries(p) + [Entry(x.name, x.investmentRank)] == Entries(p + [x]);
  }

  /** The first-minimum position is unique. */
  lemma FirstMinimumUnique(s: seq<Record>, i: int, j: int)
    requires IsFirstMinimum(s, i) && IsFirstMinimum(s, j)
    ensures i == j
  {
    assert s[i].investmentRank == s[j].investmentRank;
  }

  /**
   For a list with unique names the best investment is the record of least investment rank,
   and among equal ranks the earliest.
   */
  lemma BestInvestmentIsFirstMinimum(s: seq<Record>, i: int)
    requires UniqueNames(s) && IsFirstMinimum(s, i)
    ensures BestInvestment(s) == Some(s[i])
  {
    var d := RankDict(s);
    assert d == Entries(s) by {
      RankDictFromUnique([], s);
      assert [] + s == s;
    }
    var m := MinRankIndex(d);
    assert IsFirstMinimum(s, m);
    FirstMinimumUnique(s, i, m);
    FirstNamedUnique(s, i);
  }

  /** With unique names, the first record of a borough is its only record. */
  lemma FirstNamedUnique(s: seq<Record>, i: int)
    requires UniqueNames(s) && 0 <= i < |s|
    ensures FirstNamed(s, s[i].name) == Some(s[i])
  {
  }

  /** Any non-empty list has a first-minimum position. */
  lemma FirstMinimumExists(s: seq<Record>) returns (i: int)
    requires s != []
    ensures IsFirstMinimum(s, i)
  {
    i := MinRankIndex(Entries(s));
  }

  /** With unique names, the best investment is a selected record ranked at or above every other. */
  lemma BestInvestmentIsArgmin(s: seq<Record>)
    requires UniqueNames(s) && s != []
    ensures BestInvestment(s).Some?
    ensures BestInvestment(s).value in s
    ensures forall x :: x in s ==> BestInvestment(s).value.investmentRank <= x.investmentRank
  {
    var i := FirstMinimumExists(s);
    BestInvestmentIsFirstMinimum(s, i);
  }

  /** With BOROUGH_RANKS ranks there are no ties: the best investment beats every other selected record. */
  lemma BestInvestmentStrict(s: seq<Record>)
    requires UniqueNames(s) && RanksFromTable(s) && s != []
    ensures BestInvestment(s).Some?
    ensures forall x :: x in s && x != BestInvestment(s).value ==>
      BestInvestment(s).value.investmentRank < x.investmentRank
  {
    var i := FirstMinimumExists(s);
    BestInvestmentIsFirstMinimum(s, i);
    forall x | x in s && x != s[i] ensures s[i].investmentRank < x.investmentRank {
      var j :| 0 <= j < |s| && s[j] == x;
      RanksArePermutations(s[i].name, s[j].name);
    }
  }

  // ---------------------------------------------------------------------------
  // Cards (app.py:285): the records ordered by investment rank

  /** Non-decreasing investment rank. */
  ghost predicate Sorted(s: seq<Record>)
  {
    forall i, j :: 0 <= i < j < |s| ==> s[i].investmentRank <= s[j].investmentRank
  }

  /** Inserts `x` before the first element it does not outrank (keeping earlier equals first). */
  function Insert(x: Record, t: seq<Record>): (r: seq<Record>)
    ensures multiset(r) == multiset(t) + multiset{x}
    ensures |r| == |t| + 1
    ensures r[0] == if t == [] || x.investmentRank <= t[0].investmentRank then x else t[0]
  {
    if t == [] then [x]
    else if x.investmentRank <= t[0].investmentRank then [x] + t
    else
      var rest := Insert(x, t[1..]);
      assert t == [t[0]] + t[1..];
      [t[0]] + rest
  }

  /**
   Python's sort by investment rank, written as insertion sort. That records of equal rank
   keep their list order is proved only for the first card (SortedHead).
   */
  function SortByInvestment(s: seq<Record>): (r: seq<Record>)
    ensures Sorted(r)
    ensures multiset(r) == multiset(s)
    ensures |r| == |s|
  {
    if s == [] then []
    else
      assert s == [s[0]] + s[1..];
      InsertSorted(s[0], SortByInvestment(s[1..]));
      Insert(s[0], SortByInvestment(s[1..]))
  }

  /** Inserting into a sorted list gives a sorted list. */
  lemma {:induction false} InsertSorted(x: Record, t: seq<Record>)
    requires Sorted(t)
    ensures Sorted(Insert(x, t))
  {
    if t != [] && x.investmentRank > t[0].investmentRank {
      var rest := Insert(x, t[1..]);
      InsertSorted(x, t[1..]);
      forall j | 0 <= j < |rest| ensures t[0].investmentRank <= rest[j].investmentRank {
        assert rest[j] in multiset(rest);
        assert rest[j] == x || rest[j] in multiset(t[1..]);
        if rest[j] != x {
          var k :| 0 <= k < |t[1..]| && t[1..][k] == rest[j];
          assert t[k + 1] == rest[j];
        }
      }
      var r := [t[0]] + rest;
      forall a, b | 0 <= a < b < |r| ensures r[a].investmentRank <= r[b].investmentRank {
        if a > 0 {
          assert r[a] == rest[a - 1] && r[b] == rest[b - 1];
        } else {
          assert r[b] == rest[b - 1];
        }
      }
    }
  }

  /** The first card is the earliest record of least investment rank. */
  lemma {:induction false} SortedHead(s: seq<Record>, i: int)
    requires IsFirstMinimum(s, i)
    ensures SortByInvestment(s)[0] == s[i]
  {
    if |s| > 1 {
      var rest := s[1..];
      var k := FirstMinimumExists(rest);
      SortedHead(rest, k);
      if s[0].investmentRank <= rest[k].investmentRank {
        assert IsFirstMinimum(s, 0);
        FirstMinimumUnique(s, i, 0);
      } else {
        assert IsFirstMinimum(s, k + 1);
        FirstMinimumUnique(s, i, k + 1);
      }
    }
  }

  /** The first card shown is the borough the best-investment panel shows. */
  lemma FirstCardIsBestInvestment(s: seq<Record>)
    requires UniqueNames(s) && s != []
    ensures BestInvestment(s) == Some(SortByInvestment(s)[0])
  {
    var i := FirstMinimumExists(s);
    SortedHead(s, i);
    BestInvestmentIsFirstMinimum(s, i);
  }

  // ---------------------------------------------------------------------------
  // The rendered views

  /** What generate_borough_cards shows: the prompt text, or the cards in order. */
  datatype Cards = ClickPrompt | CardList(cards: seq<Record>)

  /** The borough-details area: the prompt text, or the best-investment panel. */
  datatype Details = SelectPrompt | BestPanel(top: Record)

  /** Everything one callback returns besides the new list itself. */
  datatype View = View(cards: Cards, chartFilter: Option<seq<string>>, details: Details)

  /** generate_borough_cards (app.py:279-285). */
  function CardsView(s: seq<Record>): (r: Cards)
    ensures r.ClickPrompt? <==> s == []
    ensures r.CardList? ==> Sorted(r.cards) && multiset(r.cards) == multiset(s) && |r.cards| == |s|
  {
    if s == [] then ClickPrompt else CardList(SortByInvestment(s))
  }

  /** The details content after a change: the prompt, or the best investment's panel. */
  function DetailsView(s: seq<Record>): (r: Details)
    ensures r.SelectPrompt? <==> s == []
    ensures UniqueNames(s) && r.BestPanel? ==>
      r.top in s && forall x :: x in s ==> r.top.investmentRank <= x.investmentRank
  {
    if s == [] then SelectPrompt
    else
      BestInvestmentNoneIff(s);
      var top := BestInvestment(s).value;
      assert UniqueNames(s) ==> top in s && forall x :: x in s ==> top.investmentRank <= x.investmentRank by {
        if UniqueNames(s) {
          BestInvestmentIsArgmin(s);
        }
      }
      BestPanel(top)
  }

  /** The views computed from the new list, with the charts restricted to its names. */
  function RenderView(s: seq<Record>): (r: View)
    ensures r.cards.ClickPrompt? <==> r.details.SelectPrompt?
    ensures r.chartFilter.Some? && |r.chartFilter.value| == |s|
    ensures r.cards.CardList? ==> |r.cards.cards| == |s|
    ensures UniqueNames(s) && s != [] ==>
      r.cards.CardList? && r.details.BestPanel? && r.cards.cards[0] == r.details.top
  {
    assert UniqueNames(s) && s != [] ==> BestInvestment(s) == Some(SortByInvestment(s)[0]) by {
      if UniqueNames(s) && s != [] {
        FirstCardIsBestInvestment(s);
      }
    }
    View(CardsView(s), Some(Names(s)), DetailsView(s))
  }
}

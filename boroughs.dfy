/**
 The five boroughs the dashboard knows about, the names under which they travel
 through click payloads and queries, and the static rank table BOROUGH_RANKS of app.py.
 */
module Boroughs {
  import opened Options

  datatype Borough = Manhattan | Brooklyn | Queens | Bronx | StatenIsland

  /** The investment rank (1 = best) and crime rank (1 = safest) of one borough. */
  datatype RankEntry = RankEntry(investmentRank: int, crimeRank: int)

  const AllBoroughs: set<Borough> := {Manhattan, Brooklyn, Queens, Bronx, StatenIsland}

  /**
   The display name of a borough, as used in payloads, button ids and SQL. It is never
   empty and contains no single quote, so it can be put between quotes in SQL.
   */
  function BoroughName(b: Borough): (r: string)
    ensures r != []
    ensures forall i :: 0 <= i < |r| ==> r[i] != '\''
  {
    match b
    case Manhattan => "Manhattan"
    case Brooklyn => "Brooklyn"
    case Queens => "Queens"
    case Bronx => "Bronx"
    case StatenIsland => "Staten Island"
  }

  /** Looking a name up in BOROUGH_RANKS: None stands for Python's KeyError. */
  function ParseBorough(s: string): (r: Option<Borough>)
    ensures r.Some? ==> BoroughName(r.value) == s
  {
    if s == "Manhattan" then Some(Manhattan)
    else if s == "Brooklyn" then Some(Brooklyn)
    else if s == "Queens" then Some(Queens)
    else if s == "Bronx" then Some(Bronx)
    else if s == "Staten Island" then Some(StatenIsland)
    else None
  }

  /** The BOROUGH_RANKS table. */
  function Ranks(b: Borough): (r: RankEntry)
    ensures 1 <= r.investmentRank <= 5 && 1 <= r.crimeRank <= 5
  {
    match b
    case Brooklyn => RankEntry(5, 1)
    case Manhattan => RankEntry(1, 4)
    case Queens => RankEntry(2, 3)
    case Bronx => RankEntry(4, 2)
    case StatenIsland => RankEntry(3, 5)
  }

  /** Every name of a borough is found by the lookup, and only those names are. */
  lemma ParseBoroughName(b: Borough, s: string)
    ensures ParseBorough(BoroughName(b)) == Some(b)
    ensures ParseBorough(s).Some? <==> exists c :: BoroughName(c) == s
  {
    if ParseBorough(s).Some? {
      assert BoroughName(ParseBorough(s).value) == s;
    }
  }

  /** Different boroughs have different names. */
  lemma BoroughNameInjective(b: Borough, c: Borough)
    ensures BoroughName(b) == BoroughName(c) <==> b == c
  {
  }

  /**
   Both columns of BOROUGH_RANKS are permutations of 1..5: every rank lies in 1..5 and no
   two boroughs share an investment rank or a crime rank.
   */
  lemma RanksArePermutations(b: Borough, c: Borough)
    ensures 1 <= Ranks(b).investmentRank <= 5 && 1 <= Ranks(b).crimeRank <= 5
    ensures Ranks(b).investmentRank == Ranks(c).investmentRank ==> b == c
    ensures Ranks(b).crimeRank == Ranks(c).crimeRank ==> b == c
    ensures (set d | d in AllBoroughs :: Ranks(d).investmentRank) == {1, 2, 3, 4, 5}
    ensures (set d | d in AllBoroughs :: Ranks(d).crimeRank) == {1, 2, 3, 4, 5}
  {
  }

  /** The enumeration has exactly five members. */
  lemma AllBoroughsComplete(b: Borough)
    ensures b in AllBoroughs && |AllBoroughs| == 5
  {
  }
}

/**
 The selected-boroughs store of app.py and its two callbacks: update_selected_boroughs,
 run on a map click, and remove_borough_card, run when a card's close button is pressed.
 */
module Dashboard {
  import opened Options
  import opened Boroughs
  import opened Selection
  import opened Views
  import RoomFigure

  /** What update_selected_boroughs produces: the views, or the KeyError of an unknown name. */
  datatype ClickOutcome = Rendered(view: View) | UnknownBorough(name: string)

  /** What remove_borough_card produces: PreventUpdate, or the views of the shortened list. */
  datatype RemoveOutcome = NoUpdate | Removed(view: View)

  /** Some close button has a non-zero click count, a None count being 0 (app.py:496-497). */
  function AnyClicked(nClicks: seq<nat>): (r: bool)
    ensures r <==> exists i :: 0 <= i < |nClicks| && nClicks[i] != 0
  {
    if nClicks == [] then false else nClicks[0] != 0 || AnyClicked(nClicks[1..])
  }

  /** The browser-side store `selected-boroughs-store`, whose data starts as the empty list. */
  class SelectionStore {
    var selections: seq<Record>

    /** No borough twice, and every record carries its BOROUGH_RANKS ranks. */
    ghost predicate Valid()
      reads this
    {
      UniqueNames(selections) && RanksFromTable(selections)
    }

    constructor ()
      ensures Valid() && selections == []
    {
      selections := [];
    }

    /** update_selected_boroughs: toggle the clicked borough, then recompute the views. */
    method OnMapClick(click: Option<Click>) returns (r: ClickOutcome)
      requires Valid()
      modifies this
      ensures Valid() && |selections| <= 5
      ensures click.None? ==>
        selections == old(selections) && r == Rendered(View(CardsView(selections), None, SelectPrompt))
      ensures click.Some? && ParseBorough(click.value.borough).None? ==>
        selections == old(selections) && r == UnknownBorough(click.value.borough)
      ensures click.Some? && ParseBorough(click.value.borough).Some? ==>
        var c := click.value;
        && selections == Toggled(old(selections), MakeRecord(ParseBorough(c.borough).value, c.listings, c.tourism))
        && r == Rendered(RenderView(selections))
    {
      UniqueAtMostFive(selections);
      if click.None? {
        r := Rendered(View(CardsView(selections), None, SelectPrompt));
        return;
      }
      var c := click.value;
      var parsed := ParseBorough(c.borough);
      if parsed.None? {
        r := UnknownBorough(c.borough);
        return;
      }
      var record := MakeRecord(parsed.value, c.listings, c.tourism);
      ToggleKeepsInvariant(selections, record);
      if HasName(selections, c.borough) {
        selections := Without(selections, c.borough);
      } else {
        selections := selections + [record];
      }
      var details := SelectPrompt;
      if selections != [] {
        BestInvestmentNoneIff(selections);
        details := BestPanel(BestInvestment(selections).value);
      }
      r := Rendered(View(CardsView(selections), Some(Names(selections)), details));
    }

    /**
     remove_borough_card: unless no button fired, drop the pressed card's borough and
     recompute the views.
     */
    method OnCloseButton(nClicks: seq<nat>, triggered: Option<string>) returns (r: RemoveOutcome)
      requires Valid()
      modifies this
      ensures Valid()
      ensures !AnyClicked(nClicks) || triggered.None? ==>
        selections == old(selections) && r == NoUpdate
      ensures AnyClicked(nClicks) && triggered.Some? ==>
        selections == Without(old(selections), triggered.value) && r == Removed(RenderView(selections))
    {
      if !AnyClicked(nClicks) {
        r := NoUpdate;
        return;
      }
      if triggered.None? {
        r := NoUpdate;
        return;
      }
      var target := triggered.value;
      WithoutKeepsInvariant(selections, target);
      selections := Without(selections, target);
      var details := SelectPrompt;
      if selections != [] {
        BestInvestmentNoneIff(selections);
        details := BestPanel(BestInvestment(selections).value);
      }
      r := Removed(View(CardsView(selections), Some(Names(selections)), details));
    }
  }

  /**
   The room chart's query restricts the boroughs to exactly the selected names, in list
   order, and is unrestricted when nothing is selected or the map has not been clicked.
   */
  lemma ChartFilterRestriction(s: seq<Record>)
    ensures RoomFigure.ReadRestriction(RoomFigure.RoomQuery(RenderView(s).chartFilter))
         == if s == [] then RoomFigure.Unrestricted else RoomFigure.RestrictedTo(Names(s))
    ensures RoomFigure.ReadRestriction(RoomFigure.RoomQuery(None)) == RoomFigure.Unrestricted
  {
    var ns := Names(s);
    forall i | 0 <= i < |ns| ensures RoomFigure.QuoteFree(ns[i]) {
      assert ns[i] == BoroughName(s[i].name);
    }
    RoomFigure.QueryRestriction(Some(ns));
    RoomFigure.QueryRestriction(None);
  }

  /** Select Manhattan, then Brooklyn: Manhattan is the best investment and its card comes first. */
  lemma ScenarioManhattanThenBrooklyn(m: Record, b: Record)
    requires m == MakeRecord(Manhattan, 10, 20) && b == MakeRecord(Brooklyn, 30, 40)
    ensures Toggled(Toggled([], m), b) == [m, b]
    ensures BestInvestment([m, b]) == Some(m)
    ensures SortByInvestment([m, b]) == [m, b]
    ensures Names([m, b]) == ["Manhattan", "Brooklyn"]
  {
    assert Toggled([], m) == [m];
    assert !HasName([m], "Brooklyn");
    assert IsFirstMinimum([m, b], 0);
    BestInvestmentIsFirstMinimum([m, b], 0);
    assert [m, b][1..] == [b];
  }

  /** Select Brooklyn and click it again: the list is empty and everything shows its prompt. */
  method ScenarioBrooklynTwice() returns (sel: seq<Record>, r: ClickOutcome)
    ensures sel == [] && r == Rendered(View(ClickPrompt, Some([]), SelectPrompt))
  {
    var store := new SelectionStore();
    var _ := store.OnMapClick(Some(Click("Brooklyn", 1, 2)));
    r := store.OnMapClick(Some(Click("Brooklyn", 1, 2)));
    sel := store.selections;
  }

  /** Select Queens and Bronx, press Queens's close button: Bronx is left and is the best investment. */
  lemma ScenarioRemoveQueens(q: Record, x: Record)
    requires q == MakeRecord(Queens, 1, 2) && x == MakeRecord(Bronx, 3, 4)
    ensures Toggled(Toggled([], q), x) == [q, x]
    ensures AnyClicked([1, 0]) && Without([q, x], "Queens") == [x]
    ensures RenderView([x]) == View(CardList([x]), Some(["Bronx"]), BestPanel(x))
  {
    assert Toggled([], q) == [q];
    assert Toggled([q], x) == [q, x] by {
      assert !HasName([q], "Bronx");
    }
    assert Without([q, x], "Queens") == [x] by {
      assert [q, x][1..] == [x];
      assert Without([x], "Queens") == [x];
    }
    assert DetailsView([x]) == BestPanel(x) by {
      assert IsFirstMinimum([x], 0);
      BestInvestmentIsFirstMinimum([x], 0);
    }
    assert CardsView([x]) == CardList([x]);
    assert Names([x]) == ["Bronx"];
  }

  /** A batch of close-button counts none of which fired changes nothing. */
  method ScenarioNothingFired() returns (before: seq<Record>, after: seq<Record>, r: RemoveOutcome)
    ensures r == NoUpdate && after == before && |before| == 1
  {
    var store := new SelectionStore();
    var _ := store.OnMapClick(Some(Click("Queens", 1, 2)));
    before := store.selections;
    r := store.OnCloseButton([0, 0], Some("Queens"));
    after := store.selections;
  }

  /** A click on a name outside BOROUGH_RANKS fails and leaves the list alone. */
  method ScenarioUnknownName() returns (sel: seq<Record>, r: ClickOutcome)
    ensures r == UnknownBorough("Hoboken") && sel == []
  {
    var store := new SelectionStore();
    r := store.OnMapClick(Some(Click("Hoboken", 1, 2)));
    sel := store.selections;
  }
}

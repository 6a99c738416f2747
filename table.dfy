/**
 * The state of the artworks table component and its event handlers: the
 * loaded page, the total count, the 1-based current page, the loading flag
 * and the set of selected ids.
 */
module Table {
  import opened Records
  import opened Selection

  /** The "n artworks selected" panel with its Clear Selection button, or nothing. */
  datatype Panel = Hidden | Shown(count: nat)

  class ArtworksTable {
    var data: seq<Artwork>
    var totalRecords: nat
    var currentPage: nat
    var loading: bool
    var selected: set<int>

    /** The object invariant: the page number is 1-based. */
    ghost predicate Valid()
      reads this
    {
      currentPage >= 1
    }

    /** The state on mount: an empty first page, nothing selected, not loading. */
    constructor ()
      ensures Valid()
      ensures data == [] && totalRecords == 0 && currentPage == 1 && !loading && selected == {}
    {
      data := [];
      totalRecords := 0;
      currentPage := 1;
      loading := false;
      selected := {};
    }

    /** The first step of a page load, before the request is awaited. */
    method BeginFetch()
      requires Valid()
      modifies this`loading
      ensures Valid()
      ensures loading
    {
      loading := true;
    }

    /**
     * The rest of a page load, once the request has settled. On success the
     * page and the total are replaced. A body without `pagination` throws
     * only after the page was stored, so the page is replaced and the total
     * kept. Any earlier failure keeps both. Loading ends in every case, and
     * the selection is never touched.
     */
    method EndFetch(response: Response)
      requires Valid()
      modifies this`data, this`totalRecords, this`loading
      ensures Valid()
      ensures response.Loaded? ==> data == ToArtworks(response.items) && totalRecords == response.total
      ensures response.MissingTotal? ==> data == ToArtworks(response.items) && totalRecords == old(totalRecords)
      ensures response.Failed? ==> data == old(data) && totalRecords == old(totalRecords)
      ensures !loading
      ensures selected == old(selected) && currentPage == old(currentPage)
    {
      match response {
        case Loaded(items, total) =>
          var artworks := ToArtworks(items);
          data := artworks;
          totalRecords := total;
        case MissingTotal(items) =>
          var artworks := ToArtworks(items);
          data := artworks;
        case Failed =>
      }
      loading := false;
    }

    /** A whole page load whose request settles with `response`. */
    method FetchData(response: Response)
      requires Valid()
      modifies this`data, this`totalRecords, this`loading
      ensures Valid()
      ensures response.Loaded? ==> data == ToArtworks(response.items) && totalRecords == response.total
      ensures response.MissingTotal? ==> data == ToArtworks(response.items) && totalRecords == old(totalRecords)
      ensures response.Failed? ==> data == old(data) && totalRecords == old(totalRecords)
      ensures !loading
      ensures selected == old(selected) && currentPage == old(currentPage)
    {
      BeginFetch();
      EndFetch(response);
    }

    /** The paginator reports a 0-based page; the component keeps it 1-based. */
    method OnPage(index: nat)
      requires Valid()
      modifies this`currentPage
      ensures Valid()
      ensures currentPage == index + 1
      ensures selected == old(selected) && data == old(data) && totalRecords == old(totalRecords)
    {
      currentPage := index + 1;
    }

    /** Whether a row's checkbox is ticked; a ticked row means the panel is shown. */
    function IsRowSelected(id: int): (b: bool)
      reads this
      ensures b ==> SelectionPanel() == Shown(|selected|) && |selected| >= 1
    {
      id in selected
    }

    /** The header checkbox: ticked exactly when the page has rows and all of them are selected. */
    function HeaderChecked(): (b: bool)
      reads this
      ensures b <==> data != [] && PageIds(data) <= selected
    {
      |data| > 0 && forall i :: 0 <= i < |data| ==> data[i].id in selected
    }

    /** The panel is hidden exactly when nothing is selected, and otherwise shows the selection's size. */
    function SelectionPanel(): (p: Panel)
      reads this
      ensures p == Hidden <==> selected == {}
      ensures p.Shown? ==> p.count == |selected| && p.count >= 1
    {
      if |selected| == 0 then Hidden else Shown(|selected|)
    }

    /** A row checkbox changes that one id and nothing else. */
    method ToggleRow(id: int, checked: bool)
      requires Valid()
      modifies this`selected
      ensures Valid()
      ensures selected == WithMembership(old(selected), id, checked)
      ensures IsRowSelected(id) == checked
      ensures forall x :: x != id ==> IsRowSelected(x) == old(IsRowSelected(x))
    {
      var updated := selected;
      if checked {
        updated := updated + {id};
      } else {
        updated := updated - {id};
      }
      selected := updated;
    }

    /**
     * The header checkbox adds or removes every id of the loaded page and
     * leaves ids of other pages alone; afterwards the header shows `checked`
     * on a non-empty page and is unticked on an empty one.
     */
    method ToggleSelectAll(checked: bool)
      requires Valid()
      modifies this`selected
      ensures Valid()
      ensures selected == if checked then old(selected) + PageIds(data) else old(selected) - PageIds(data)
      ensures forall x :: x !in PageIds(data) ==> IsRowSelected(x) == old(IsRowSelected(x))
      ensures HeaderChecked() == (checked && data != [])
    {
      var updated := MarkRows(selected, data, checked);
      selected := updated;
      if !checked && data != [] {
        assert data[0].id in PageIds(data);
      }
    }

    /** The Clear Selection button empties the selection, which hides the panel. */
    method ClearSelection()
      requires Valid()
      modifies this`selected
      ensures Valid()
      ensures selected == {}
      ensures SelectionPanel() == Hidden
    {
      selected := {};
    }
  }

  /**
   * A row selected on one page is still selected after the user pages away,
   * a page loads (or fails to), the user pages back and that page loads
   * again, whatever the loads return.
   */
  method SelectionSurvivesPaging(id: int, first: Response, other: Response, index: nat, again: Response)
    returns (stillSelected: bool, panel: Panel)
    ensures stillSelected
    ensures panel == Shown(1)
  {
    var table := new ArtworksTable();
    table.FetchData(first);
    table.ToggleRow(id, true);
    table.OnPage(index);
    table.FetchData(other);
    table.OnPage(0);
    table.BeginFetch();
    table.EndFetch(again);
    stillSelected := table.IsRowSelected(id);
    panel := table.SelectionPanel();
  }

  /**
   * Deselecting every row of one page keeps a selection made on another
   * page that does not hold the same id. If the other page fails to load
   * before its rows are stored, the previous page stays on screen, and
   * deselecting its rows does drop the earlier selection.
   */
  method DeselectAllKeepsOtherPages(kept: Artwork, elsewhere: Response)
    returns (stillSelected: bool)
    requires !elsewhere.Failed? ==> forall i :: 0 <= i < |elsewhere.items| ==> elsewhere.items[i].id != kept.id
    ensures stillSelected <==> !elsewhere.Failed?
  {
    var table := new ArtworksTable();
    table.FetchData(Loaded([AsItem(kept)], 1));
    table.ToggleSelectAll(true);
    table.OnPage(1);
    table.FetchData(elsewhere);
    table.ToggleSelectAll(false);
    stillSelected := table.IsRowSelected(kept.id);
    if elsewhere.Failed? {
      assert table.data[0].id == kept.id;
    } else {
      assert kept.id !in PageIds(table.data);
    }
  }

  /**
   * A load whose body lacks `pagination` shows the new page next to the
   * total of the previous load.
   */
  method MissingTotalKeepsOldTotal(first: seq<Item>, total: nat, next: seq<Item>)
    returns (shown: seq<Artwork>, count: nat)
    ensures |shown| == |next| && shown == ToArtworks(next)
    ensures count == total
  {
    var table := new ArtworksTable();
    table.FetchData(Loaded(first, total));
    table.OnPage(1);
    table.FetchData(MissingTotal(next));
    shown, count := table.data, table.totalRecords;
  }
}

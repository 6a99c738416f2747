/**
 * The selection of the table: a set of artwork ids, kept apart from the page
 * that happens to be loaded.
 */
module Selection {
  import opened Records

  /** The ids of the rows of a page. */
  function PageIds(rows: seq<Artwork>): set<int> {
    set i | 0 <= i < |rows| :: rows[i].id
  }

  lemma PageIdsAppend(rows: seq<Artwork>, row: Artwork)
    ensures PageIds(rows + [row]) == PageIds(rows) + {row.id}
  {
    var both := rows + [row];
    forall x | x in PageIds(both) ensures x in PageIds(rows) + {row.id} {
      var i :| 0 <= i < |both| && both[i].id == x;
      if i < |rows| {
        assert rows[i] == both[i];
      }
    }
    forall x | x in PageIds(rows) + {row.id} ensures x in PageIds(both) {
      if x == row.id {
        assert both[|rows|] == row;
      } else {
        var i :| 0 <= i < |rows| && rows[i].id == x;
        assert both[i] == rows[i];
      }
    }
  }

  /**
   * The selection after one row checkbox is set to `checked`: that id is a
   * member exactly when `checked`, and no other id changes.
   */
  function WithMembership(s: set<int>, id: int, checked: bool): (r: set<int>)
    ensures id in r <==> checked
    ensures forall x :: x != id ==> (x in r <==> x in s)
  {
    if checked then s + {id} else s - {id}
  }

  /** Setting a row checkbox twice to the same value is the same as setting it once. */
  lemma WithMembershipIdempotent(s: set<int>, id: int, checked: bool)
    ensures WithMembership(WithMembership(s, id, checked), id, checked) == WithMembership(s, id, checked)
  {
  }

  /**
   * The selected count grows by one when a new id is checked, shrinks by one
   * when a selected id is unchecked, and is unchanged otherwise.
   */
  lemma WithMembershipCount(s: set<int>, id: int, checked: bool)
    ensures |WithMembership(s, id, checked)| ==
            if checked == (id in s) then |s|
            else if checked then |s| + 1
            else |s| - 1
  {
  }

  /**
   * The per-row loop of the header checkbox: starting from a copy of `s`,
   * every row of the page is added (`checked`) or deleted (otherwise), one
   * row at a time. The result is `s` with the page's ids added or removed;
   * ids that are not on the page are left as they were.
   */
  method MarkRows(s: set<int>, rows: seq<Artwork>, checked: bool) returns (updated: set<int>)
    ensures updated == if checked then s + PageIds(rows) else s - PageIds(rows)
  {
    updated := s;
    var i := 0;
    while i < |rows|
      invariant 0 <= i <= |rows|
      invariant updated == if checked then s + PageIds(rows[..i]) else s - PageIds(rows[..i])
    {
      assert rows[..i + 1] == rows[..i] + [rows[i]];
      PageIdsAppend(rows[..i], rows[i]);
      if checked {
        updated := updated + {rows[i].id};
      } else {
        updated := updated - {rows[i].id};
      }
      i := i + 1;
    }
    assert rows[..i] == rows;
  }
}

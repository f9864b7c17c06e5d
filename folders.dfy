/**
 * The folder planner: the board folder `OUTPUT_FOLDER / board_name` and, inside it,
 * one folder per list, `board_path / list_name`, recorded in a map from list id to
 * path. Board and list names are used as they are, without sanitizing. The `mkdir`
 * calls themselves are not modelled, only the paths they are given.
 */
module Folders {
  import opened TrelloData
  import Dict

  /**
   * `create_folder_structure`: the board's folder is the output folder plus the raw,
   * unsanitized board name; an empty name leaves the output folder itself.
   */
  function BoardPath(outputFolder: Path, boardName: string): (p: Path)
    ensures boardName == "" ==> p == outputFolder
    ensures boardName != "" ==> p == outputFolder + [boardName]
  {
    Join(outputFolder, boardName)
  }

  /** The assignments `list_paths[list_id] = board_path / list_name`, one per list, in order. */
  function ListEntries(boardPath: Path, lists: seq<TrelloList>): (entries: seq<(string, Path)>)
  {
    seq(|lists|, i requires 0 <= i < |lists| => (lists[i].id, Join(boardPath, lists[i].name)))
  }

  /** The map `create_list_folders` returns, as a specification. */
  function ListPaths(boardPath: Path, lists: seq<TrelloList>): map<string, Path>
  {
    Dict.FromPairs(ListEntries(boardPath, lists))
  }

  /** No list after position `i` has the id of list `i`. */
  ghost predicate IsLastWithId(lists: seq<TrelloList>, i: int)
  {
    0 <= i < |lists| && forall j :: i < j < |lists| ==> lists[j].id != lists[i].id
  }

  /** The map's keys are exactly the list ids. */
  lemma ListPathKeys(boardPath: Path, lists: seq<TrelloList>)
    ensures ListPaths(boardPath, lists).Keys == set l | l in lists :: l.id
  {
    var entries := ListEntries(boardPath, lists);
    forall id | id in ListPaths(boardPath, lists) ensures exists l :: l in lists && l.id == id {
      var p :| p in entries && p.0 == id;
      var i :| 0 <= i < |entries| && entries[i] == p;
      assert lists[i] in lists;
    }
    forall l | l in lists ensures l.id in ListPaths(boardPath, lists) {
      var i :| 0 <= i < |lists| && lists[i] == l;
      assert entries[i] in entries;
    }
  }

  /** Each id is mapped to the folder of the last list that carries it. */
  lemma ListPathIsLastList(boardPath: Path, lists: seq<TrelloList>, i: int)
    requires IsLastWithId(lists, i)
    ensures lists[i].id in ListPaths(boardPath, lists)
    ensures ListPaths(boardPath, lists)[lists[i].id] == Join(boardPath, lists[i].name)
  {
    Dict.LastWins(ListEntries(boardPath, lists), i);
  }

  /** `create_list_folders`: fills `list_paths` list by list. */
  method CreateListFolders(boardPath: Path, lists: seq<TrelloList>) returns (listPaths: map<string, Path>)
    ensures listPaths == ListPaths(boardPath, lists)
    ensures listPaths.Keys == set l | l in lists :: l.id
    ensures forall i | IsLastWithId(lists, i) :: listPaths[lists[i].id] == Join(boardPath, lists[i].name)
  {
    ghost var entries := ListEntries(boardPath, lists);
    listPaths := map[];
    for k := 0 to |lists|
      invariant listPaths == Dict.FromPairs(entries[..k])
    {
      var listName := lists[k].name;
      var listId := lists[k].id;
      var listPath := Join(boardPath, listName);
      listPaths := listPaths[listId := listPath];
      assert entries[..k + 1][..k] == entries[..k];
    }
    assert entries[..|lists|] == entries;
    ListPathKeys(boardPath, lists);
    forall i | IsLastWithId(lists, i) ensures listPaths[lists[i].id] == Join(boardPath, lists[i].name) {
      ListPathIsLastList(boardPath, lists, i);
    }
  }
}

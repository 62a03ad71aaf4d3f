/**
 * `highlight_files_sync_status`: compares the local and the server file
 * lists shown in two tree views and tags each row with how the two copies
 * of a file relate.
 */
module Classifier {
  import opened Wrappers
  import opened Index

  /** A file name as listed by the operating system: never empty. */
  type Name = s: string | s != [] witness "a"

  datatype Tag = LocalOnly | ServerOnly | LocalNewer | ServerNewer

  /** What the classifier reads from a row: the hash and the modification time. */
  datatype Item = Item(hash: Digest, mtime: real)

  /** A tree row, `iid` being the file name: `(name, size in MB, date, hash, size, mtime)` without the display columns. */
  datatype Row = Row(name: Name, size: nat, mtime: real, hash: Digest)

  /** The names of the rows. */
  function Names(rows: seq<Row>): set<Name> {
    set i | 0 <= i < |rows| :: rows[i].name
  }

  /** `{values[0]: {'hash': values[3], 'mtime': values[5]} for each row}`: the last row of a name wins. */
  function Items(rows: seq<Row>): (m: map<Name, Item>)
    ensures m.Keys == Names(rows)
    ensures rows != [] ==> m[rows[|rows| - 1].name] == Item(rows[|rows| - 1].hash, rows[|rows| - 1].mtime)
  {
    if rows == [] then map[]
    else
      var last := rows[|rows| - 1];
      var init := rows[..|rows| - 1];
      assert Names(rows) == Names(init) + {last.name} by {
        forall n | n in Names(rows) ensures n in Names(init) + {last.name} {
          var i :| 0 <= i < |rows| && rows[i].name == n;
          if i < |rows| - 1 {
            assert init[i] == rows[i];
          }
        }
      }
      Items(init)[last.name := Item(last.hash, last.mtime)]
  }

  /** Every name's item is that of its last row, whatever rows of that name come before. */
  lemma {:induction false} ItemsLastRow(rows: seq<Row>)
    ensures forall i | 0 <= i < |rows| && (forall j | i < j < |rows| :: rows[j].name != rows[i].name) ::
      Items(rows)[rows[i].name] == Item(rows[i].hash, rows[i].mtime)
  {
    if rows != [] {
      var init := rows[..|rows| - 1];
      ItemsLastRow(init);
      forall i | 0 <= i < |rows| - 1 && (forall j | i < j < |rows| :: rows[j].name != rows[i].name)
        ensures Items(rows)[rows[i].name] == Item(rows[i].hash, rows[i].mtime)
      {
        assert init[i] == rows[i];
        assert rows[|rows| - 1].name != rows[i].name;
        forall j | i < j < |init| ensures init[j].name != init[i].name {
          assert init[j] == rows[j];
        }
      }
    }
  }

  /**
   * The tag for one name of the union of both lists: present on one side
   * only, or present on both with different hashes, in which case the later
   * modification time wins and a tie goes to the server.
   */
  function Classify(local: map<Name, Item>, server: map<Name, Item>, n: Name): (t: Option<Tag>)
    ensures t == Some(LocalOnly) <==> n in local && n !in server
    ensures t == Some(ServerOnly) <==> n !in local && n in server
    ensures t == None <==> (n !in local && n !in server) || (n in local && n in server && local[n].hash == server[n].hash)
  {
    if n in local && n !in server then Some(LocalOnly)
    else if n !in local && n in server then Some(ServerOnly)
    else if n in local && n in server then
      if local[n].hash != server[n].hash then
        Some(if local[n].mtime > server[n].mtime then LocalNewer else ServerNewer)
      else None
    else None
  }

  /** The same relation seen from the other side. */
  function Mirror(t: Option<Tag>): Option<Tag> {
    match t
    case None => None
    case Some(LocalOnly) => Some(ServerOnly)
    case Some(ServerOnly) => Some(LocalOnly)
    case Some(LocalNewer) => Some(ServerNewer)
    case Some(ServerNewer) => Some(LocalNewer)
  }

  /** Both copies differ and carry the same modification time. */
  predicate Tie(local: map<Name, Item>, server: map<Name, Item>, n: Name) {
    n in local && n in server && local[n].hash != server[n].hash && local[n].mtime == server[n].mtime
  }

  /**
   * Swapping the two lists swaps the tags (local for server and back),
   * except on a tie.
   */
  lemma ClassifyMirror(local: map<Name, Item>, server: map<Name, Item>, n: Name)
    requires !Tie(local, server, n)
    ensures Classify(server, local, n) == Mirror(Classify(local, server, n))
  {
  }

  /** On a tie the server wins whichever list is called local: the rule is not symmetric. */
  lemma TieGoesToServer(local: map<Name, Item>, server: map<Name, Item>, n: Name)
    requires Tie(local, server, n)
    ensures Classify(local, server, n) == Some(ServerNewer)
    ensures Classify(server, local, n) == Some(ServerNewer)
  {
  }

  /** When both copies differ the tag says which one is newer. */
  lemma NewerMeansLater(local: map<Name, Item>, server: map<Name, Item>, n: Name)
    requires n in local && n in server && local[n].hash != server[n].hash
    ensures Classify(local, server, n) == Some(LocalNewer) <==> local[n].mtime > server[n].mtime
    ensures Classify(local, server, n) == Some(ServerNewer) <==> local[n].mtime <= server[n].mtime
  {
  }

  /** A row's tags: none, or the one tag the classifier chose. */
  function TagsOf(t: Option<Tag>): (r: seq<Tag>)
    ensures |r| <= 1
    ensures t.None? ==> r == []
    ensures t.Some? ==> r == [t.value]
  {
    if t.Some? then [t.value] else []
  }

  /**
   * A tree's tags after the names in `done` have been processed: each
   * processed name that has a row in this tree (`own`) carries exactly the
   * classifier's tag, and every other row keeps what it had.
   */
  function Retag(tags: map<Name, seq<Tag>>, done: set<Name>, own: map<Name, Item>,
                 local: map<Name, Item>, server: map<Name, Item>): map<Name, seq<Tag>>
  {
    map n | n in tags.Keys + (done * own.Keys) ::
      if n in done && n in own then TagsOf(Classify(local, server, n)) else tags[n]
  }

  /** Processing a name that has a row here sets exactly that row's tags. */
  lemma RetagStep(tags: map<Name, seq<Tag>>, done: set<Name>, own: map<Name, Item>,
                  local: map<Name, Item>, server: map<Name, Item>, n: Name)
    requires n !in done && n in own
    ensures Retag(tags, done + {n}, own, local, server) == Retag(tags, done, own, local, server)[n := TagsOf(Classify(local, server, n))]
  {
    var a := Retag(tags, done + {n}, own, local, server);
    var c := Retag(tags, done, own, local, server)[n := TagsOf(Classify(local, server, n))];
    assert a.Keys == c.Keys;
    forall k | k in a ensures a[k] == c[k] {
    }
  }

  /** Processing a name without a row here changes nothing. */
  lemma RetagSkip(tags: map<Name, seq<Tag>>, done: set<Name>, own: map<Name, Item>,
                  local: map<Name, Item>, server: map<Name, Item>, n: Name)
    requires n !in own
    ensures Retag(tags, done + {n}, own, local, server) == Retag(tags, done, own, local, server)
  {
    var a := Retag(tags, done + {n}, own, local, server);
    var b := Retag(tags, done, own, local, server);
    assert a.Keys == b.Keys;
    forall k | k in a ensures a[k] == b[k] {
    }
  }

  /** The tags of a tree view, keyed by row id (the file name); an absent key has no tags. */
  class TreeView {
    var rows: seq<Row>
    var tags: map<Name, seq<Tag>>

    constructor (rows0: seq<Row>)
      ensures rows == rows0 && tags == map[]
    {
      rows := rows0;
      tags := map[];
    }
  }

  /**
   * `highlight_files_sync_status`: for every name in the union of both
   * lists, clears the tags of its rows, then tags them with the classifier's
   * tag; rows of other names keep their tags.
   */
  method HighlightSyncStatus(localTree: TreeView, serverTree: TreeView)
    requires localTree != serverTree
    modifies localTree`tags, serverTree`tags
    ensures var local := Items(localTree.rows); var server := Items(serverTree.rows);
      localTree.tags == Retag(old(localTree.tags), local.Keys + server.Keys, local, local, server)
    ensures var local := Items(localTree.rows); var server := Items(serverTree.rows);
      serverTree.tags == Retag(old(serverTree.tags), local.Keys + server.Keys, server, local, server)
  {
    var localItems := Items(localTree.rows);
    var serverItems := Items(serverTree.rows);
    var all := localItems.Keys + serverItems.Keys;
    ghost var localTags0, serverTags0 := localTree.tags, serverTree.tags;
    var todo := all;
    ghost var done: set<Name> := {};
    while todo != {}
      invariant todo <= all && done == all - todo
      invariant localTree.tags == Retag(localTags0, done, localItems, localItems, serverItems)
      invariant serverTree.tags == Retag(serverTags0, done, serverItems, localItems, serverItems)
      decreases todo
    {
      var filename :| filename in todo;
      // the rows' tags are cleared, then set to the classifier's tag if any
      var rowTags: seq<Tag> := [];
      var tag := Classify(localItems, serverItems, filename);
      if tag.Some? {
        rowTags := [tag.value];
      }
      TagRows(localTree, localTags0, done, localItems, localItems, serverItems, filename, rowTags);
      TagRows(serverTree, serverTags0, done, serverItems, localItems, serverItems, filename, rowTags);
      todo := todo - {filename};
      done := done + {filename};
    }
    assert done == all;
  }

  /** One tree's part of a loop pass: the rows of `filename`, if the tree has any, get `rowTags`. */
  method TagRows(tree: TreeView, ghost tags0: map<Name, seq<Tag>>, ghost done: set<Name>, own: map<Name, Item>,
                 ghost local: map<Name, Item>, ghost server: map<Name, Item>, filename: Name, rowTags: seq<Tag>)
    requires filename !in done && rowTags == TagsOf(Classify(local, server, filename))
    requires tree.tags == Retag(tags0, done, own, local, server)
    modifies tree`tags
    ensures tree.tags == Retag(tags0, done + {filename}, own, local, server)
  {
    if filename in own {
      RetagStep(tags0, done, own, local, server, filename);
      tree.tags := tree.tags[filename := rowTags];
    } else {
      RetagSkip(tags0, done, own, local, server, filename);
    }
  }

  /**
   * After highlighting, a file listed on both sides carries the same tags in
   * both trees, at most one tag, and a file listed on one side only is
   * tagged as such; the tags of any other name are left as they were.
   */
  lemma HighlightAgrees(ltags: map<Name, seq<Tag>>, stags: map<Name, seq<Tag>>,
                        local: map<Name, Item>, server: map<Name, Item>, n: Name)
    ensures var l := Retag(ltags, local.Keys + server.Keys, local, local, server);
      n in local ==> n in l && |l[n]| <= 1
    ensures var l := Retag(ltags, local.Keys + server.Keys, local, local, server);
      var s := Retag(stags, local.Keys + server.Keys, server, local, server);
      n in local && n in server ==> l[n] == s[n]
    ensures var l := Retag(ltags, local.Keys + server.Keys, local, local, server);
      n in local && n !in server ==> l[n] == [LocalOnly]
    ensures var s := Retag(stags, local.Keys + server.Keys, server, local, server);
      n !in local && n in server ==> s[n] == [ServerOnly]
    ensures var l := Retag(ltags, local.Keys + server.Keys, local, local, server);
      var s := Retag(stags, local.Keys + server.Keys, server, local, server);
      n !in local && n !in server ==> SameTags(l, ltags, n) && SameTags(s, stags, n)
  {
  }

  /** Both tag maps give `n` the same tags, or none. */
  predicate SameTags(a: map<Name, seq<Tag>>, b: map<Name, seq<Tag>>, n: Name) {
    (n in a <==> n in b) && (n in a ==> a[n] == b[n])
  }

  /** Highlighting twice gives the same tags as highlighting once. */
  lemma HighlightIdempotent(tags: map<Name, seq<Tag>>, own: map<Name, Item>,
                            local: map<Name, Item>, server: map<Name, Item>)
    ensures var all := local.Keys + server.Keys;
      Retag(Retag(tags, all, own, local, server), all, own, local, server) == Retag(tags, all, own, local, server)
  {
    var all := local.Keys + server.Keys;
    var once := Retag(tags, all, own, local, server);
    var twice := Retag(once, all, own, local, server);
    assert twice.Keys == once.Keys;
  }
}

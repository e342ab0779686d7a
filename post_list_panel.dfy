/**
 * The feed panel: a table of the posts a feed store lists for the signed-in
 * user, with a single selection that the reaction, preview and comment
 * actions act on. The table is sorted ascending on its ID column; the table
 * model declares no column class, so the sorter compares the ID texts, and
 * post 10 is shown above post 9.
 */
module PostListView {
  import opened JavaLang
  import opened SnsPort
  import FileLookup
  import MySns
  import Ordering

  /** How many posts reload and search ask for. */
  const FeedLimit: int := 100

  /** The conventional folders tried, in order, for a file name without a
      folder. */
  const PanelFolders: seq<string> := ["./images/", "./img/", "./assets/", "./"]

  /** The candidate paths for a post's attachment: folder and name joined
      when both are given, the folder alone when only it is given, the name
      in each conventional folder when only it is given, none otherwise. */
  function Candidates(path: Option<string>, name: Option<string>, separator: string): (c: seq<string>)
    ensures c == [] <==> IsNullOrBlank(path) && IsNullOrBlank(name)
    ensures !IsNullOrBlank(path) && !IsNullOrBlank(name) ==> c == [path.value + separator + name.value]
    ensures !IsNullOrBlank(path) && IsNullOrBlank(name) ==> c == [path.value]
    ensures !IsNullOrBlank(name) ==> forall i :: 0 <= i < |c| ==> FileLookup.EndsWith(c[i], name.value)
    ensures IsNullOrBlank(path) && !IsNullOrBlank(name) ==>
      |c| == |PanelFolders| && forall i :: 0 <= i < |c| ==> c[i] == PanelFolders[i] + name.value
  {
    if !IsNullOrBlank(path) && !IsNullOrBlank(name) then
      FileLookup.EndsWithAppend(path.value + separator, name.value);
      [path.value + separator + name.value]
    else if !IsNullOrBlank(path) then
      [path.value]
    else if !IsNullOrBlank(name) then
      var n := name.value;
      FileLookup.EndsWithAppend(PanelFolders[0], n);
      FileLookup.EndsWithAppend(PanelFolders[1], n);
      FileLookup.EndsWithAppend(PanelFolders[2], n);
      FileLookup.EndsWithAppend(PanelFolders[3], n);
      [PanelFolders[0] + n, PanelFolders[1] + n, PanelFolders[2] + n, PanelFolders[3] + n]
    else
      []
  }

  /** findExistingPath: the absolute path of the first candidate naming a
      regular file, or null. */
  method FindExistingPath(path: Option<string>, name: Option<string>, fs: FileLookup.FileSystem) returns (full: Option<string>)
    ensures full == FileLookup.Lookup(Candidates(path, name, fs.separator), fs)
  {
    full := FileLookup.FirstExisting(Candidates(path, name, fs.separator), fs);
  }

  /** What opening a post shows. */
  datatype Preview =
    | OfferComments                       // no attachment at all: offer the comment window instead
    | Placeholder(caption: Option<string>) // an attachment is named but not on disk
    | Viewer(file: string)                // the attachment found on disk

  /** openPreview's decision, given the lookup's result. */
  function PreviewOf(p: PostView, found: Option<string>): Preview {
    var noAttachment := IsNullOrBlank(p.filePath) && IsNullOrBlank(p.fileName);
    if noAttachment && found.None? then OfferComments
    else if found.None? then Placeholder(if IsNullOrBlank(p.fileName) then None else p.fileName)
    else Viewer(found.value)
  }

  /** A post naming no attachment always leads to the comment offer; one
      naming an attachment leads to the viewer exactly when some candidate
      is a regular file, and to a placeholder otherwise. */
  lemma PreviewCases(p: PostView, fs: FileLookup.FileSystem)
    ensures var c := Candidates(p.filePath, p.fileName, fs.separator);
      var v := PreviewOf(p, FileLookup.Lookup(c, fs));
      && (v == OfferComments <==> IsNullOrBlank(p.filePath) && IsNullOrBlank(p.fileName))
      && (v.Viewer? <==> exists i :: 0 <= i < |c| && fs.isFile(c[i]))
      && (v.Placeholder? <==> c != [] && forall i :: 0 <= i < |c| ==> !fs.isFile(c[i]))
  {
    var c := Candidates(p.filePath, p.fileName, fs.separator);
    if c == [] {
      assert FileLookup.Lookup(c, fs).None?;
    }
  }

  /** One table cell. */
  datatype Cell = Number(n: int) | Text(s: string) | Null | Time(t: Timestamp) | State(r: Reaction) | Empty

  /** The table's columns: ID, author, file name, upload time, likes,
      dislikes, my state. */
  const ColumnCount: int := 7

  /** getValueAt: the cell a post shows in a column. */
  function ValueAt(p: PostView, column: int): Cell {
    match column
    case 0 => Number(p.postId)
    case 1 => Text(p.authorName)
    case 2 => if p.fileName.None? then Null else Text(p.fileName.value)
    case 3 => Time(p.uploadTime)
    case 4 => Number(p.likeCount)
    case 5 => Number(p.dislikeCount)
    case 6 => State(p.myState)
    case _ => Empty
  }

  /** The author id, the folder and the text body are not shown. */
  lemma HiddenFields(p: PostView, authorId: int, content: Option<string>, filePath: Option<string>)
    ensures forall column :: ValueAt(p.(authorId := authorId, content := content, filePath := filePath), column) == ValueAt(p, column)
  {
  }

  /** Two posts showing the same seven cells agree on every shown field. */
  lemma CellsDetermineShownFields(p: PostView, q: PostView)
    requires forall column :: 0 <= column < ColumnCount ==> ValueAt(p, column) == ValueAt(q, column)
    ensures p.postId == q.postId && p.authorName == q.authorName && p.fileName == q.fileName
    ensures p.uploadTime == q.uploadTime && p.likeCount == q.likeCount && p.dislikeCount == q.dislikeCount
    ensures p.myState == q.myState
  {
    assert ValueAt(p, 0) == ValueAt(q, 0);
    assert ValueAt(p, 1) == ValueAt(q, 1);
    assert ValueAt(p, 2) == ValueAt(q, 2);
    assert ValueAt(p, 3) == ValueAt(q, 3);
    assert ValueAt(p, 4) == ValueAt(q, 4);
    assert ValueAt(p, 5) == ValueAt(q, 5);
    assert ValueAt(p, 6) == ValueAt(q, 6);
  }

  /** The text of the ID cell, which is what the sorter compares. */
  function IdText(p: PostView): string {
    IntString(p.postId)
  }

  /** Model row `m` is shown above model row `n`: its ID text comes first,
      or the texts are equal and it comes first in the model, the sorter's
      fallback. */
  predicate ShownAbove(rows: seq<PostView>, m: int, n: int) {
    && 0 <= m < |rows| && 0 <= n < |rows|
    && (|| Ordering.TextBefore(IdText(rows[m]), IdText(rows[n]))
        || (IdText(rows[m]) == IdText(rows[n]) && m < n))
  }

  /** `order` lists model rows, each shown above the ones after it. */
  predicate InViewOrder(rows: seq<PostView>, order: seq<int>) {
    && (forall i :: 0 <= i < |order| ==> 0 <= order[i] < |rows|)
    && (forall i, j :: 0 <= i < j < |order| ==> ShownAbove(rows, order[i], order[j]))
  }

  /** Of two different rows one is shown above the other. */
  lemma ShownAboveTotal(rows: seq<PostView>, m: int, n: int)
    requires 0 <= m < |rows| && 0 <= n < |rows| && m != n
    ensures ShownAbove(rows, m, n) || ShownAbove(rows, n, m)
  {
    Ordering.TextBeforeTotal(IdText(rows[m]), IdText(rows[n]));
  }

  /** Being shown above is transitive. */
  lemma ShownAboveTransitive(rows: seq<PostView>, a: int, b: int, c: int)
    requires ShownAbove(rows, a, b) && ShownAbove(rows, b, c)
    ensures ShownAbove(rows, a, c)
  {
    var ta, tb, tc := IdText(rows[a]), IdText(rows[b]), IdText(rows[c]);
    if Ordering.TextBefore(ta, tb) && Ordering.TextBefore(tb, tc) {
      Ordering.TextBeforeTransitive(ta, tb, tc);
    }
  }

  /** A row shown above the head of a view order is shown above all of it. */
  lemma AboveAll(rows: seq<PostView>, x: int, order: seq<int>)
    requires InViewOrder(rows, order) && order != [] && ShownAbove(rows, x, order[0])
    ensures forall j :: 0 <= j < |order| ==> ShownAbove(rows, x, order[j])
  {
    forall j | 0 < j < |order| ensures ShownAbove(rows, x, order[j]) {
      ShownAboveTransitive(rows, x, order[0], order[j]);
    }
  }

  /** Places model row `x` into a view order where the sorter shows it. */
  function Insert(rows: seq<PostView>, x: int, order: seq<int>): (r: seq<int>)
    requires 0 <= x < |rows| && x !in order
    requires InViewOrder(rows, order)
    ensures |r| == |order| + 1
    ensures forall y :: y in r <==> y == x || y in order
    ensures InViewOrder(rows, r)
  {
    if order == [] then [x]
    else if ShownAbove(rows, x, order[0]) then
      AboveAll(rows, x, order);
      [x] + order
    else
      ShownAboveTotal(rows, x, order[0]);
      var rest := Insert(rows, x, order[1..]);
      assert forall j :: 0 <= j < |rest| ==> rest[j] == x || rest[j] in order[1..];
      [order[0]] + rest
  }

  /** The view order of the first `n` model rows. */
  function SortRows(rows: seq<PostView>, n: nat): (r: seq<int>)
    requires n <= |rows|
    ensures |r| == n
    ensures forall y :: y in r <==> 0 <= y < n
    ensures InViewOrder(rows, r)
  {
    if n == 0 then [] else Insert(rows, n - 1, SortRows(rows, n - 1))
  }

  /** The table's order: every model row once, ascending by ID text, ties
      in model order. */
  function ViewOrder(rows: seq<PostView>): (r: seq<int>)
    ensures |r| == |rows|
    ensures forall m :: 0 <= m < |rows| ==> m in r
    ensures InViewOrder(rows, r)
  {
    SortRows(rows, |rows|)
  }

  /** A view order shows no model row twice. */
  lemma ViewRowsDistinct(rows: seq<PostView>, order: seq<int>)
    requires InViewOrder(rows, order)
    ensures forall i, j :: 0 <= i < j < |order| ==> order[i] != order[j]
  {
    forall i, j | 0 <= i < j < |order| ensures order[i] != order[j] {
      Ordering.TextBeforeIrreflexive(IdText(rows[order[i]]));
    }
  }

  /** Posts 11, 10 and 9, listed highest id first, are shown as 10, 11, 9:
      with nothing selected an action applies to post 10. */
  lemma ViewExample(rows: seq<PostView>)
    requires |rows| == 3 && rows[0].postId == 11 && rows[1].postId == 10 && rows[2].postId == 9
    ensures ViewOrder(rows) == [1, 0, 2]
    ensures rows[ViewOrder(rows)[0]].postId == 10
  {
    assert IdText(rows[0]) == "11" && IdText(rows[1]) == "10" && IdText(rows[2]) == "9";
    assert SortRows(rows, 1) == [0];
    assert Ordering.TextBefore("0", "1");
    assert ShownAbove(rows, 1, 0);
    assert SortRows(rows, 2) == [1, 0];
    assert !Ordering.TextBefore("9", "10") && !Ordering.TextBefore("9", "11");
    assert Insert(rows, 2, [0]) == [0, 2];
  }

  class PostListPanel {
    const port: MySns.MySnsPort
    const myUserId: int
    /** The table model's rows, in the order the store listed them. */
    var rows: seq<PostView>
    /** The selected row in the table's (sorted) order, -1 for none. */
    var selected: int

    /** The selection is a row or none, and the rows come highest post id
        first, as both store queries order them. */
    ghost predicate Valid()
      reads this, port
    {
      && port.Valid()
      && -1 <= selected < |rows|
      && forall i, j :: 0 <= i < j < |rows| ==> rows[i].postId > rows[j].postId
    }

    /** `rows` are the store's views of the posts `ids`, seen by this
        panel's user. */
    ghost predicate Shows(ids: seq<int>)
      reads this, port
    {
      && |rows| == |ids|
      && forall i :: 0 <= i < |ids| ==>
           ids[i] in port.posts && port.posts[ids[i]].userId in port.users
           && rows[i] == MySns.View(port.users, port.posts, port.reactions, ids[i], myUserId)
    }

    /** convertRowIndexToModel: the model row a table row shows. */
    function ModelIndex(viewRow: int): (m: int)
      reads this
      requires 0 <= viewRow < |rows|
      ensures 0 <= m < |rows|
    {
      ViewOrder(rows)[viewRow]
    }

    /** The table, read top to bottom, lists the posts strictly ascending
        by ID text. */
    lemma TableInTextOrder()
      requires Valid()
      ensures forall i, j :: 0 <= i < j < |rows| ==>
        Ordering.TextBefore(IdText(rows[ModelIndex(i)]), IdText(rows[ModelIndex(j)]))
    {
      var order := ViewOrder(rows);
      ViewRowsDistinct(rows, order);
      forall i, j | 0 <= i < j < |rows|
        ensures Ordering.TextBefore(IdText(rows[order[i]]), IdText(rows[order[j]]))
      {
        var m, n := order[i], order[j];
        if m < n {
          assert rows[m].postId > rows[n].postId;
        } else {
          assert rows[n].postId > rows[m].postId;
        }
        JavaLang.IntStringInjective(rows[m].postId, rows[n].postId);
      }
    }

    /** A new panel loads the recent feed. */
    constructor (port: MySns.MySnsPort, myUserId: int)
      requires port.Valid()
      modifies {}
      ensures this.port == port && this.myUserId == myUserId
      ensures Valid()
      ensures Shows(MySns.Page(MySns.Joined(port.users, port.posts), FeedLimit))
      ensures selected == -1
    {
      this.port := port;
      this.myUserId := myUserId;
      rows := [];
      selected := -1;
      new;
      Reload();
    }

    /** reload: the recent feed, at most a hundred posts; new rows clear the
        selection. */
    method Reload()
      requires Valid()
      modifies this
      ensures Valid()
      ensures Shows(MySns.Page(MySns.Joined(port.users, port.posts), FeedLimit))
      ensures selected == -1
    {
      var ids := MySns.Page(MySns.Joined(port.users, port.posts), FeedLimit);
      rows := port.ListRecent(myUserId, FeedLimit);
      selected := -1;
      assert forall i :: 0 <= i < |rows| ==> rows[i].postId == ids[i];
    }

    /** search: the posts matching `keyword`, at most a hundred; new rows
        clear the selection. */
    method Search(keyword: Option<string>)
      requires Valid()
      modifies this
      ensures Valid()
      ensures Shows(MySns.Page(MySns.SearchRows(port.users, port.posts, MySns.SearchPattern(keyword), port.fold), FeedLimit))
      ensures selected == -1
    {
      var ids := MySns.Page(MySns.SearchRows(port.users, port.posts, MySns.SearchPattern(keyword), port.fold), FeedLimit);
      rows := port.Search(myUserId, keyword, FeedLimit);
      selected := -1;
      assert forall i :: 0 <= i < |rows| ==> rows[i].postId == ids[i];
    }

    /** A mouse press on the table: a press on a row selects it, a press
        outside the rows (-1) keeps the selection. */
    method Press(viewRow: int)
      requires Valid()
      modifies this
      ensures Valid() && rows == old(rows)
      ensures selected == if 0 <= viewRow < |rows| then viewRow else old(selected)
    {
      if 0 <= viewRow < |rows| {
        selected := viewRow;
      }
    }

    /** ensureSelected: with nothing selected the first row of the table is
        selected; -1 exactly when the table is empty. */
    method EnsureSelected() returns (viewRow: int)
      requires Valid()
      modifies this
      ensures Valid() && rows == old(rows)
      ensures viewRow == selected
      ensures old(selected) != -1 ==> viewRow == old(selected)
      ensures old(selected) == -1 ==> viewRow == if rows == [] then -1 else 0
      ensures viewRow == -1 <==> rows == []
    {
      if selected == -1 && |rows| > 0 {
        selected := 0;
      }
      viewRow := selected;
    }

    /** With nothing selected an action applies to the top row: the post
        whose ID text comes first, not the lowest post id. */
    lemma DefaultIsFirstInTextOrder()
      requires Valid() && rows != []
      ensures forall m :: 0 <= m < |rows| && m != ModelIndex(0) ==>
        Ordering.TextBefore(IdText(rows[ModelIndex(0)]), IdText(rows[m]))
    {
      TableInTextOrder();
      forall m | 0 <= m < |rows| && m != ModelIndex(0)
        ensures Ordering.TextBefore(IdText(rows[ModelIndex(0)]), IdText(rows[m]))
      {
        var order := ViewOrder(rows);
        assert m in order;
        var v :| 0 <= v < |order| && order[v] == m;
        assert v != 0 && ModelIndex(v) == m;
      }
    }

    /** toggle(type): the selected post's reaction is toggled in the store
        and the recent feed reloaded, keeping the same table row selected
        while it exists; nothing happens with an empty table. The result is
        the state reported to the user. */
    method Toggle(button: Reaction) returns (state: Option<Reaction>)
      requires Valid()
      modifies this, port
      ensures Valid()
      ensures old(rows) == [] ==> state.None? && rows == old(rows) && port.reactions == old(port.reactions)
      ensures old(rows) != [] ==>
        var viewRow := if old(selected) == -1 then 0 else old(selected);
        var postId := old(rows)[ViewOrder(old(rows))[viewRow]].postId;
        var key := (myUserId, postId);
        && state == Some(Toggled(MySns.MyState(old(port.reactions), myUserId, postId), button))
        && port.reactions == (if key in old(port.reactions) && old(port.reactions)[key] == button
                              then old(port.reactions) - {key}
                              else old(port.reactions)[key := button])
        && Shows(MySns.Page(MySns.Joined(port.users, port.posts), FeedLimit))
        && selected == (if viewRow < |rows| then viewRow else -1)
      ensures port.users == old(port.users) && port.posts == old(port.posts) && port.comments == old(port.comments)
      ensures port.nextUserId == old(port.nextUserId) && port.nextPostId == old(port.nextPostId)
      ensures port.nextCommentId == old(port.nextCommentId)
    {
      var viewRow := EnsureSelected();
      if viewRow < 0 {
        return None;
      }
      assert viewRow == if old(selected) == -1 then 0 else old(selected);
      var p := rows[ModelIndex(viewRow)];
      assert p.postId == old(rows)[ViewOrder(old(rows))[viewRow]].postId;
      var r := port.ToggleReaction(myUserId, p.postId, button);
      Reload();
      if viewRow < |rows| {
        selected := viewRow;
      }
      state := Some(r);
    }

    /** openComments: the post the comment window opens on, none with an
        empty table. */
    method OpenComments() returns (postId: Option<int>)
      requires Valid()
      modifies this
      ensures Valid() && rows == old(rows)
      ensures rows != [] ==> 0 <= selected < |rows|
      ensures selected == if old(selected) == -1 && rows != [] then 0 else old(selected)
      ensures rows == [] <==> postId.None?
      ensures postId.Some? ==> postId.value == rows[ModelIndex(selected)].postId
    {
      var viewRow := EnsureSelected();
      if viewRow < 0 {
        return None;
      }
      postId := Some(rows[ModelIndex(viewRow)].postId);
    }

    /** openPreview: what opening the selected post shows, none with an
        empty table. */
    method OpenPreview(fs: FileLookup.FileSystem) returns (shown: Option<Preview>)
      requires Valid()
      modifies this
      ensures Valid() && rows == old(rows)
      ensures rows != [] ==> 0 <= selected < |rows|
      ensures selected == if old(selected) == -1 && rows != [] then 0 else old(selected)
      ensures rows == [] <==> shown.None?
      ensures shown.Some? ==>
        var p := rows[ModelIndex(selected)];
        shown.value == PreviewOf(p, FileLookup.Lookup(Candidates(p.filePath, p.fileName, fs.separator), fs))
    {
      var viewRow := EnsureSelected();
      if viewRow < 0 {
        return None;
      }
      var p := rows[ModelIndex(viewRow)];
      var full := FindExistingPath(p.filePath, p.fileName, fs);
      shown := Some(PreviewOf(p, full));
    }
  }
}

/**
 * The post detail window: the post's picture (found on disk, a placeholder,
 * or none), and for the post's own author the edit and delete buttons,
 * which write through the feed store and then ask the opener to refresh.
 */
module PostDetail {
  import opened JavaLang
  import opened SnsPort
  import FileLookup
  import MySns
  import PostListView

  /** The conventional folders tried, in order, after the post's own
      folder. */
  const DetailFolders: seq<string> := ["./images/", "./img/", "./"]

  /** The candidate paths: none without a file name; otherwise the post's
      folder joined with the name when a folder is given, then the name in
      each conventional folder. */
  function DetailCandidates(path: Option<string>, name: Option<string>, separator: string): (c: seq<string>)
    ensures IsNullOrBlank(name) ==> c == []
    ensures !IsNullOrBlank(name) ==>
      && |c| == |DetailFolders| + (if IsNullOrBlank(path) then 0 else 1)
      && (forall i :: 0 <= i < |c| ==> FileLookup.EndsWith(c[i], name.value))
      && (!IsNullOrBlank(path) ==> c[0] == path.value + separator + name.value)
      && (forall i :: 0 <= i < |DetailFolders| ==> c[|c| - |DetailFolders| + i] == DetailFolders[i] + name.value)
  {
    if IsNullOrBlank(name) then []
    else
      var n := name.value;
      var own := if IsNullOrBlank(path) then [] else [path.value + separator + n];
      FileLookup.EndsWithAppend(ValueOf(path) + separator, n);
      FileLookup.EndsWithAppend(DetailFolders[0], n);
      FileLookup.EndsWithAppend(DetailFolders[1], n);
      FileLookup.EndsWithAppend(DetailFolders[2], n);
      own + [DetailFolders[0] + n, DetailFolders[1] + n, DetailFolders[2] + n]
  }

  /** findExistingPath: the absolute path of the first candidate naming a
      regular file, or null. */
  method FindExistingPath(path: Option<string>, name: Option<string>, fs: FileLookup.FileSystem) returns (full: Option<string>)
    ensures full == FileLookup.Lookup(DetailCandidates(path, name, fs.separator), fs)
  {
    full := FileLookup.FirstExisting(DetailCandidates(path, name, fs.separator), fs);
  }

  /** What the window shows above the text. */
  datatype Picture = FromDisk(file: string) | Placeholder(fileName: string) | NoPicture

  /** The picture decision, given the lookup's result. */
  function PictureOf(post: PostView, found: Option<string>): Picture {
    if found.Some? then FromDisk(found.value)
    else if !IsNullOrBlank(post.fileName) then Placeholder(post.fileName.value)
    else NoPicture
  }

  /** Without a file name there is never a picture, whatever the folder;
      with one there is always a picture, from disk exactly when a
      candidate is a regular file. */
  lemma PictureCases(post: PostView, fs: FileLookup.FileSystem)
    ensures var c := DetailCandidates(post.filePath, post.fileName, fs.separator);
      var p := PictureOf(post, FileLookup.Lookup(c, fs));
      && (p == NoPicture <==> IsNullOrBlank(post.fileName))
      && (p.FromDisk? <==> exists i :: 0 <= i < |c| && fs.isFile(c[i]))
  {
  }

  /** A post with a folder but no file name: the feed panel's preview
      looks the folder itself up, while the detail window tries nothing. */
  lemma FolderOnlyPost(post: PostView, separator: string)
    requires !IsNullOrBlank(post.filePath) && IsNullOrBlank(post.fileName)
    ensures PostListView.Candidates(post.filePath, post.fileName, separator) == [post.filePath.value]
    ensures DetailCandidates(post.filePath, post.fileName, separator) == []
  {
  }

  /** For a file name without a folder, whenever the detail window finds
      the file the feed panel's preview finds one too; the panel also
      tries ./assets/ before ./, so the two can open different files. */
  lemma DetailFoundImpliesPanelFound(post: PostView, fs: FileLookup.FileSystem)
    requires IsNullOrBlank(post.filePath) && !IsNullOrBlank(post.fileName)
    requires FileLookup.Lookup(DetailCandidates(post.filePath, post.fileName, fs.separator), fs).Some?
    ensures FileLookup.Lookup(PostListView.Candidates(post.filePath, post.fileName, fs.separator), fs).Some?
  {
    var d := DetailCandidates(post.filePath, post.fileName, fs.separator);
    var c := PostListView.Candidates(post.filePath, post.fileName, fs.separator);
    var i :| 0 <= i < |d| && fs.isFile(d[i]);
    var j := if i == 2 then 3 else i;
    assert c[j] == d[i];
  }

  /** The edit and delete buttons appear for the post's author only. */
  predicate ShowsOwnerButtons(post: PostView, viewer: int) {
    post.authorId == viewer
  }

  /** For a post read from the store, the buttons appear exactly when the
      store's deletePost and updatePost by the viewer would act on it. */
  lemma OwnerButtonsMatchStore(users: map<int, MySns.UserRow>, posts: map<int, MySns.PostRow>,
                               reactions: MySns.Reactions, id: int, viewer: int)
    requires id in posts && posts[id].userId in users
    ensures var post := MySns.View(users, posts, reactions, id, viewer);
      ShowsOwnerButtons(post, viewer) <==> (post.postId in posts && posts[post.postId].userId == viewer)
  {
  }

  /** The edit box's input is accepted when it is not null and not empty
      once trimmed; the store receives the trimmed text. */
  predicate AcceptsEdit(input: Option<string>) {
    input.Some? && Trim(input.value) != []
  }

  /** The edit check uses trim().isEmpty(), not isBlank(): an ideographic
      space alone is accepted and stored, though the post form would have
      dropped it as blank. */
  lemma EditAcceptsBlankText()
    ensures AcceptsEdit(Some("\U{3000}"))
    ensures IsBlank("\U{3000}")
    ensures Trim("\U{3000}") == "\U{3000}"
  {
    assert TrimStart("\U{3000}") == 0;
    assert TrimEnd("\U{3000}") == 1;
  }

  class PostDetailDialog {
    const port: MySns.MySnsPort
    const myUserId: int
    const post: PostView
    /** Whether the opener passed a refresh callback. */
    const hasOnUpdate: bool
    var disposed: bool
    /** How many times the refresh callback has run. */
    var refreshes: nat

    constructor (port: MySns.MySnsPort, myUserId: int, post: PostView, hasOnUpdate: bool)
      ensures this.port == port && this.myUserId == myUserId && this.post == post
      ensures this.hasOnUpdate == hasOnUpdate
      ensures !disposed && refreshes == 0
    {
      this.port := port;
      this.myUserId := myUserId;
      this.post := post;
      this.hasOnUpdate := hasOnUpdate;
      disposed := false;
      refreshes := 0;
    }

    /** Whether the store holds this post under the viewer's id. */
    ghost predicate OwnedInStore()
      reads port
    {
      post.postId in port.posts && port.posts[post.postId].userId == myUserId
    }

    /** doDelete: after a confirmation the store deletes the post for this
        viewer, the window closes and the opener refreshes; without one
        nothing changes. */
    method DoDelete(confirmed: bool)
      requires port.Valid()
      modifies this, port
      ensures port.Valid()
      ensures port.users == old(port.users) && port.reactions == old(port.reactions) && port.comments == old(port.comments)
      ensures port.nextUserId == old(port.nextUserId) && port.nextPostId == old(port.nextPostId)
      ensures port.nextCommentId == old(port.nextCommentId)
      ensures confirmed && old(OwnedInStore()) ==> port.posts == old(port.posts) - {post.postId}
      ensures !(confirmed && old(OwnedInStore())) ==> port.posts == old(port.posts)
      ensures disposed == (old(disposed) || confirmed)
      ensures refreshes == old(refreshes) + (if confirmed && hasOnUpdate then 1 else 0)
    {
      if confirmed {
        port.DeletePost(myUserId, post.postId);
        disposed := true;
        if hasOnUpdate {
          refreshes := refreshes + 1;
        }
      }
    }

    /** doEdit: accepted input replaces the post's text with the trimmed
        input, stamped `now`, then the window closes and the opener
        refreshes; cancelled or empty input changes nothing. */
    method DoEdit(input: Option<string>, now: Timestamp)
      requires port.Valid()
      modifies this, port
      ensures port.Valid()
      ensures port.users == old(port.users) && port.reactions == old(port.reactions) && port.comments == old(port.comments)
      ensures port.nextUserId == old(port.nextUserId) && port.nextPostId == old(port.nextPostId)
      ensures port.nextCommentId == old(port.nextCommentId)
      ensures port.posts.Keys == old(port.posts).Keys
      ensures forall id :: id in port.posts && id != post.postId ==> port.posts[id] == old(port.posts)[id]
      ensures AcceptsEdit(input) && old(OwnedInStore()) ==>
        && port.posts[post.postId] == old(port.posts)[post.postId].(context := Some(Trim(input.value)), updateTime := Some(now))
        && Trim(input.value) != [] && Trim(Trim(input.value)) == Trim(input.value)
      ensures !(AcceptsEdit(input) && old(OwnedInStore())) ==> port.posts == old(port.posts)
      ensures disposed == (old(disposed) || AcceptsEdit(input))
      ensures refreshes == old(refreshes) + (if AcceptsEdit(input) && hasOnUpdate then 1 else 0)
    {
      if input.Some? && Trim(input.value) != [] {
        TrimIdempotent(input.value);
        port.UpdatePost(myUserId, post.postId, Some(Trim(input.value)), now);
        disposed := true;
        if hasOnUpdate {
          refreshes := refreshes + 1;
        }
      }
    }
  }
}

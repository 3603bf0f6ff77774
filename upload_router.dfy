/** The `FileUploadHandler` classes that watch the encoder's output directory
    and push HLS segments and playlists to the bucket. Four scripts carry a
    copy; they differ in which file-system events they listen to and in how
    the object key is built. A handler call is modelled as the upload it
    issues, if any; the storage client itself is left out. */
module UploadRouter {
  import opened Wrappers
  import Text

  /** The watchdog event kinds the handlers override. */
  datatype Kind = Created | Moved | Closed

  /** Which script's handler. */
  datatype Variant =
    | StreamHandler  // app/stream_handler.py: created, moved, closed
    | TestMod        // test_mod.py: moved, closed
    | TestScript     // test.py: moved, closed
    | Test2          // test2.py: moved, created; key through `os.path.join`

  /** An issued `upload_file(local, file_type)`: the local path, the object
      key and the type it is logged with. */
  datatype Upload = Upload(local: string, key: string, fileType: string)

  /** `HLS_FOLDER`. */
  const HlsFolder: string := "hls/"

  /** The object key of a local path. */
  function Key(v: Variant, local: string): string {
    if v == Test2 then Text.JoinPath(HlsFolder, Text.Basename(local))
    else HlsFolder + Text.Basename(local)
  }

  /** The body of `on_created` / `on_closed`: segments and playlists are
      uploaded as they are, anything else is ignored. */
  function OnWritten(v: Variant, src: string): Option<Upload> {
    if Text.EndsWith(src, ".ts") then Some(Upload(src, Key(v, src), ".ts"))
    else if Text.EndsWith(src, ".m3u8") then
      if Text.EndsWith(src, ".tmp") then None
      else Some(Upload(src, Key(v, src), ".m3u8"))
    else None
  }

  /** The body of `on_moved`: a renamed temporary playlist is uploaded under
      the part of its name before the first ".tmp". */
  function OnMoved(v: Variant, src: string): Option<Upload> {
    if Text.EndsWith(src, ".tmp") then
      var local := Text.BeforeFirst(src, ".tmp");
      Some(Upload(local, Key(v, local), ".m3u8"))
    else None
  }

  /** Whether a variant overrides the handler of a kind; the base class does
      nothing for the others. */
  predicate Listens(v: Variant, k: Kind) {
    match k
    case Moved => true
    case Created => v == StreamHandler || v == Test2
    case Closed => v != Test2
  }

  /** The upload one file-system event leads to. */
  function Route(v: Variant, k: Kind, src: string): (r: Option<Upload>)
    ensures !Listens(v, k) ==> r == None
    ensures r.Some? ==> r.value.key == Key(v, r.value.local)
    ensures r.Some? ==> r.value.fileType == ".ts" || r.value.fileType == ".m3u8"
    ensures r.Some? && r.value.fileType == ".ts" ==> r.value.local == src
  {
    if !Listens(v, k) then None
    else if k == Moved then OnMoved(v, src)
    else OnWritten(v, src)
  }

  /** A playlist name never ends in ".tmp", so the skip in the playlist
      branch never happens. */
  lemma PlaylistIsNeverTmp(src: string)
    requires Text.EndsWith(src, ".m3u8")
    ensures !Text.EndsWith(src, ".tmp")
  {
    assert src[|src| - 1] == ".m3u8"[4];
  }

  /** A segment name never ends in ".m3u8", so the order of the two suffix
      tests does not matter. */
  lemma SegmentIsNotPlaylist(src: string)
    requires Text.EndsWith(src, ".ts")
    ensures !Text.EndsWith(src, ".m3u8")
  {
    assert src[|src| - 1] == ".ts"[2];
  }

  /** What a created or closed event uploads: a segment under label ".ts", a
      playlist under ".m3u8", both with the path unchanged, and nothing for
      any other name. */
  lemma WrittenUploads(v: Variant, src: string)
    ensures Text.EndsWith(src, ".ts") ==> OnWritten(v, src) == Some(Upload(src, Key(v, src), ".ts"))
    ensures Text.EndsWith(src, ".m3u8") ==> OnWritten(v, src) == Some(Upload(src, Key(v, src), ".m3u8"))
    ensures OnWritten(v, src).Some? <==> Text.EndsWith(src, ".ts") || Text.EndsWith(src, ".m3u8")
  {
    if Text.EndsWith(src, ".m3u8") {
      PlaylistIsNeverTmp(src);
      assert src[|src| - 1] == ".m3u8"[4];
      assert !Text.EndsWith(src, ".ts");
    }
  }

  /** What a moved event uploads: only sources ending in ".tmp", and then the
      prefix before the first ".tmp" (a ".tmp" follows it in the source, and
      it holds none itself), labelled as a playlist. */
  lemma MovedUploads(v: Variant, src: string)
    ensures OnMoved(v, src).Some? <==> Text.EndsWith(src, ".tmp")
    ensures OnMoved(v, src).Some? ==>
              var u := OnMoved(v, src).value;
              && u.fileType == ".m3u8"
              && |u.local| <= |src| - 4
              && src[..|u.local|] == u.local
              && Text.OccursAt(src, ".tmp", |u.local|)
              && (forall i: nat :: i < |u.local| ==> !Text.OccursAt(u.local, ".tmp", i))
              && u.key == Key(v, u.local)
  {
    if Text.EndsWith(src, ".tmp") {
      Text.BeforeFirstOfSuffixed(src, ".tmp");
      var local := Text.BeforeFirst(src, ".tmp");
      forall i: nat | i < |local| ensures !Text.OccursAt(local, ".tmp", i) {
        assert !Text.OccursAt(src, ".tmp", i);
        if i + 4 <= |local| {
          assert local == src[..|local|];
          assert local[i..][..4] == local[i..i + 4] == src[i..i + 4] == src[i..][..4];
        }
      }
    }
  }

  /** Every variant's key is the folder followed by the base name: for
      test2.py, `os.path.join("hls/", name)` adds no second slash. */
  lemma KeyIsFolderAndName(v: Variant, local: string)
    ensures Key(v, local) == HlsFolder + Text.Basename(local)
  {
    if v == Test2 {
      Text.JoinPathWithBasename(HlsFolder, local);
    }
  }

  /** The key names a single object under the folder: no '/' after
      "hls/", and its name is the local path's last component. */
  lemma KeyShape(v: Variant, local: string)
    ensures Text.StartsWith(Key(v, local), HlsFolder)
    ensures '/' !in Key(v, local)[|HlsFolder|..]
    ensures Text.EndsWith(Text.DropTrailingSlashes(local), Key(v, local)[|HlsFolder|..])
    ensures |Key(v, local)[|HlsFolder|..]| == |Text.DropTrailingSlashes(local)|
            || Text.DropTrailingSlashes(local)[|Text.DropTrailingSlashes(local)| - |Key(v, local)[|HlsFolder|..]| - 1] == '/'
  {
    KeyIsFolderAndName(v, local);
    var k := Key(v, local);
    assert k[..|HlsFolder|] == HlsFolder;
    assert k[|HlsFolder|..] == Text.Basename(local);
  }

  /** In app/stream_handler.py, created and closed events are routed
      alike. */
  lemma CreatedIsClosed(src: string)
    ensures Route(StreamHandler, Created, src) == Route(StreamHandler, Closed, src)
  {
  }

  /** The handlers of test_mod.py and test.py are the same code. */
  lemma TestCopiesAgree(k: Kind, src: string)
    ensures Route(TestMod, k, src) == Route(TestScript, k, src)
  {
  }

  /** The uploads a sequence of events leads to, in order. */
  function Issued(v: Variant, events: seq<(Kind, string)>): (r: seq<Upload>)
    ensures |r| <= |events|
  {
    if events == [] then []
    else
      var u := Route(v, events[0].0, events[0].1);
      (if u.Some? then [u.value] else []) + Issued(v, events[1..])
  }

  /** No record of past uploads is kept: a segment reported both created and
      closed in app/stream_handler.py is uploaded twice. */
  lemma SegmentUploadedTwice(src: string)
    requires Text.EndsWith(src, ".ts")
    ensures var u := Upload(src, Key(StreamHandler, src), ".ts");
            Issued(StreamHandler, [(Created, src), (Closed, src)]) == [u, u]
  {
    WrittenUploads(StreamHandler, src);
    var u := Upload(src, Key(StreamHandler, src), ".ts");
    IssuedTwo(StreamHandler, (Created, src), (Closed, src), u, u);
  }

  /** Two events that each lead to an upload issue both, in order. */
  lemma IssuedTwo(v: Variant, e1: (Kind, string), e2: (Kind, string), u1: Upload, u2: Upload)
    requires Route(v, e1.0, e1.1) == Some(u1) && Route(v, e2.0, e2.1) == Some(u2)
    ensures Issued(v, [e1, e2]) == [u1, u2]
  {
    var es := [e1, e2];
    assert es[1..] == [e2];
    assert es[1..][1..] == [];
  }

  /** What becomes of an issued upload: the storage call either succeeds or
      raises, and the handler catches the error and logs it. */
  datatype Report = Uploaded(upload: Upload) | UploadFailed(upload: Upload)

  /** The handler's log for a sequence of events, `fails(k)` telling whether
      the storage call for the k-th issued upload raises. */
  function Handle(v: Variant, events: seq<(Kind, string)>, fails: nat -> bool, k: nat): seq<Report> {
    if events == [] then []
    else
      var u := Route(v, events[0].0, events[0].1);
      if u.None? then Handle(v, events[1..], fails, k)
      else
        [if fails(k) then UploadFailed(u.value) else Uploaded(u.value)] + Handle(v, events[1..], fails, k + 1)
  }

  function Attempted(rs: seq<Report>): (us: seq<Upload>)
    ensures |us| == |rs|
    ensures forall i :: 0 <= i < |rs| ==> us[i] == rs[i].upload
  {
    if rs == [] then [] else [rs[0].upload] + Attempted(rs[1..])
  }

  /** Errors are swallowed: whichever uploads fail, every later event is
      still handled and the same uploads are attempted, in the same order. */
  lemma {:induction false} FailuresDoNotStopHandling(v: Variant, events: seq<(Kind, string)>, fails: nat -> bool, k: nat)
    ensures Attempted(Handle(v, events, fails, k)) == Issued(v, events)
  {
    if events != [] {
      var u := Route(v, events[0].0, events[0].1);
      if u.None? {
        FailuresDoNotStopHandling(v, events[1..], fails, k);
      } else {
        FailuresDoNotStopHandling(v, events[1..], fails, k + 1);
        var rest := Handle(v, events[1..], fails, k + 1);
        var r := if fails(k) then UploadFailed(u.value) else Uploaded(u.value);
        assert ([r] + rest)[1..] == rest;
      }
    }
  }
}

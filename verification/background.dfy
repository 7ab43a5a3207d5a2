/**
 Loading an animated background (`LoadBackgroundSequence`, CustomKBMOverlay.cpp,
 lines 188-245). The file system is a given `Listing` of the folder, and the
 natural-order comparison used for sorting is an arbitrary total preorder `le`.
 */
module Background {
  import opened Strings
  import opened State

  /** One directory entry: its file name and whether it is a regular file. */
  datatype Entry = Entry(name: string, isRegularFile: bool)

  /** What the file system holds at the requested folder path. */
  datatype Listing = Missing | NotADirectory | Directory(entries: seq<Entry>)

  /** At most this many frames are taken from a folder. */
  const FrameLimit: nat := 150
  const BackgroundsDir := "CustomKBMOverlay/backgrounds/"
  const NoFolderEntered := "No folder entered."
  const NoPngFiles := "Folder found, but contains no .png files."

  function SuccessStatus(n: nat): string {
    "Success! Loaded " + NatToString(n) + " frames."
  }

  function FramePath(folder: string, name: string): Path {
    BackgroundsDir + folder + "/" + name
  }

  /** Position of the last `c` in `s` at or before index `i - 1`, if any. */
  function LastIndexOf(s: string, c: char, i: nat): (r: Option<nat>)
    requires i <= |s|
    ensures r.Some? ==> r.value < i && s[r.value] == c && forall j :: r.value < j < i ==> s[j] != c
    ensures r.None? ==> forall j :: 0 <= j < i ==> s[j] != c
  {
    if i == 0 then None
    else if s[i - 1] == c then Some(i - 1)
    else LastIndexOf(s, c, i - 1)
  }

  /**
   `std::filesystem::path::extension` of a file name: from the last dot on, except
   that a dot opening the name (".png", "..") starts no extension.
   */
  function Extension(name: string): (ext: string)
    ensures ext == [] || (ext[0] == '.' && |ext| < |name| && ext == name[|name| - |ext|..])
    ensures ext != [] ==> forall j :: 1 <= j < |ext| ==> ext[j] != '.'
    ensures ext != [] <==> name != ".." && exists j :: 1 <= j < |name| && name[j] == '.'
  {
    if name == ".." then ""
    else
      match LastIndexOf(name, '.', |name|)
      case None => ""
      case Some(i) => if i == 0 then "" else name[i..]
  }

  /** A name with something before ".png" has extension ".png"; ".png" alone has none. */
  lemma PngExtension(x: string)
    requires x != []
    ensures Extension(x + ".png") == ".png"
    ensures Extension(".png") == ""
  {
    var name := x + ".png";
    assert name[|x|] == '.';
    assert name[|name| - 4..] == ".png";
  }

  /** Whether a regular file is taken as a frame depends only on its name ending in ".png" after a non-empty stem. */
  lemma PngFileIsFrame(x: string)
    requires x != []
    ensures IsFrameFile(Entry(x + ".png", true))
    ensures !IsFrameFile(Entry(x + ".png", false))
    ensures !IsFrameFile(Entry(".png", true))
  {
    PngExtension(x);
  }

  /** An entry the loader takes as a frame: a regular file whose extension is exactly ".png". */
  predicate IsFrameFile(e: Entry) {
    e.isRegularFile && Extension(e.name) == ".png"
  }

  /** Every frame file of the listing, in iteration order, as paths. */
  function FrameFiles(entries: seq<Entry>, folder: string): (r: seq<Path>)
    ensures |r| <= |entries|
  {
    if entries == [] then []
    else
      var last := entries[|entries| - 1];
      FrameFiles(entries[..|entries| - 1], folder) + if IsFrameFile(last) then [FramePath(folder, last.name)] else []
  }

  lemma {:induction false} FrameFilesAppend(a: seq<Entry>, b: seq<Entry>, folder: string)
    ensures FrameFiles(a + b, folder) == FrameFiles(a, folder) + FrameFiles(b, folder)
    decreases |b|
  {
    if b != [] {
      var b' := b[..|b| - 1];
      assert (a + b)[..|a + b| - 1] == a + b';
      FrameFilesAppend(a, b', folder);
    } else {
      assert a + b == a;
    }
  }

  function Take<T>(s: seq<T>, n: nat): (r: seq<T>)
    ensures |r| == if |s| < n then |s| else n
  {
    if |s| <= n then s else s[..n]
  }

  /**
   The scanning loop: collects frame files in iteration order and stops as soon as
   the limit is reached.
   */
  method CollectFrames(entries: seq<Entry>, folder: string) returns (paths: seq<Path>)
    ensures paths == Take(FrameFiles(entries, folder), FrameLimit)
    ensures |paths| <= FrameLimit
  {
    paths := [];
    var i := 0;
    while i < |entries|
      invariant 0 <= i <= |entries|
      invariant paths == FrameFiles(entries[..i], folder)
      invariant |paths| < FrameLimit
    {
      FrameFilesStep(entries, i, folder);
      if IsFrameFile(entries[i]) {
        paths := paths + [FramePath(folder, entries[i].name)];
        if |paths| >= FrameLimit {
          FrameFilesFull(entries, i + 1, folder);
          return;
        }
      }
      i := i + 1;
    }
    assert entries[..i] == entries;
  }

  lemma FrameFilesStep(entries: seq<Entry>, i: nat, folder: string)
    requires i < |entries|
    ensures FrameFiles(entries[..i + 1], folder) == FrameFiles(entries[..i], folder) +
      if IsFrameFile(entries[i]) then [FramePath(folder, entries[i].name)] else []
  {
    assert entries[..i + 1][..i] == entries[..i];
  }

  /** Once the frames of a prefix reach the limit, the rest of the listing adds nothing that is taken. */
  lemma FrameFilesFull(entries: seq<Entry>, n: nat, folder: string)
    requires n <= |entries|
    requires |FrameFiles(entries[..n], folder)| == FrameLimit
    ensures Take(FrameFiles(entries, folder), FrameLimit) == FrameFiles(entries[..n], folder)
  {
    assert entries == entries[..n] + entries[n..];
    FrameFilesAppend(entries[..n], entries[n..], folder);
    var all := FrameFiles(entries, folder);
    assert all[..FrameLimit] == FrameFiles(entries[..n], folder);
  }

  // ---- sorting under an abstract order ----

  /** `le(a, b)`: `a` may come before `b` (natural-order comparison of `b` against `a` is not negative). */
  ghost predicate TotalPreorder(le: (Path, Path) -> bool) {
    && (forall a, b :: le(a, b) || le(b, a))
    && (forall a, b, c :: le(a, b) && le(b, c) ==> le(a, c))
  }

  predicate SortedBy(s: seq<Path>, le: (Path, Path) -> bool) {
    forall i, j :: 0 <= i < j < |s| ==> le(s[i], s[j])
  }

  function Insert(x: Path, s: seq<Path>, le: (Path, Path) -> bool): (r: seq<Path>)
    requires TotalPreorder(le) && SortedBy(s, le)
    ensures SortedBy(r, le)
    ensures multiset(r) == multiset(s) + multiset{x}
  {
    if s == [] then [x]
    else if le(x, s[0]) then
      InsertFront(x, s, le);
      [x] + s
    else
      var rest := Insert(x, s[1..], le);
      InsertBehind(x, s, rest, le);
      [s[0]] + rest
  }

  lemma InsertFront(x: Path, s: seq<Path>, le: (Path, Path) -> bool)
    requires TotalPreorder(le) && SortedBy(s, le)
    requires s != [] && le(x, s[0])
    ensures SortedBy([x] + s, le)
    ensures multiset([x] + s) == multiset(s) + multiset{x}
  {
    var r := [x] + s;
    forall i, j | 0 <= i < j < |r|
      ensures le(r[i], r[j])
    {
      if i == 0 {
        assert r[j] == s[j - 1];
        if j > 1 {
          assert le(s[0], s[j - 1]);
        }
      } else {
        assert r[i] == s[i - 1] && r[j] == s[j - 1];
      }
    }
  }

  lemma InsertBehind(x: Path, s: seq<Path>, rest: seq<Path>, le: (Path, Path) -> bool)
    requires TotalPreorder(le) && SortedBy(s, le)
    requires s != [] && !le(x, s[0])
    requires SortedBy(rest, le)
    requires multiset(rest) == multiset(s[1..]) + multiset{x}
    ensures SortedBy([s[0]] + rest, le)
    ensures multiset([s[0]] + rest) == multiset(s) + multiset{x}
  {
    assert s == [s[0]] + s[1..];
    var r := [s[0]] + rest;
    forall i, j | 0 <= i < j < |r|
      ensures le(r[i], r[j])
    {
      assert r[j] == rest[j - 1];
      if i == 0 {
        var y := rest[j - 1];
        assert y in multiset(rest);
        if y != x {
          assert y in multiset(s[1..]);
          var k :| 0 <= k < |s[1..]| && s[1..][k] == y;
          assert le(s[0], s[k + 1]);
        }
      } else {
        assert r[i] == rest[i - 1];
      }
    }
  }

  /** The sort of the collected paths: same paths, ordered by `le`. */
  function SortFrames(s: seq<Path>, le: (Path, Path) -> bool): (r: seq<Path>)
    requires TotalPreorder(le)
    ensures SortedBy(r, le)
    ensures multiset(r) == multiset(s)
  {
    if s == [] then []
    else
      assert s == [s[0]] + s[1..];
      Insert(s[0], SortFrames(s[1..], le), le)
  }

  /**
   `LoadBackgroundSequence`: an empty name clears the animation; a missing folder,
   a non-directory or a folder without frame files only changes the status text;
   otherwise the first (at most 150) frame files, sorted, become the frames and the
   animation restarts.
   */
  method LoadBackgroundSequence(s: Overlay, folderName: string, listing: Listing, le: (Path, Path) -> bool)
    returns (r: Overlay)
    requires TotalPreorder(le)
    ensures r.(backgroundFrames := s.backgroundFrames, currentFrameIndex := s.currentFrameIndex,
               bgFrameTimer := s.bgFrameTimer, lastBgFolderStatus := s.lastBgFolderStatus) == s
    ensures r.backgroundFrames == s.backgroundFrames || |r.backgroundFrames| <= FrameLimit
    ensures folderName == "" ==>
      r == s.(backgroundFrames := [], currentFrameIndex := 0, bgFrameTimer := 0.0, lastBgFolderStatus := NoFolderEntered)
    ensures folderName != "" && listing.Missing? ==>
      r == s.(lastBgFolderStatus := "Path not found: /backgrounds/" + folderName)
    ensures folderName != "" && listing.NotADirectory? ==>
      r == s.(lastBgFolderStatus := "Not a directory: " + folderName)
    ensures folderName != "" && listing.Directory? && FrameFiles(listing.entries, folderName) == [] ==>
      r == s.(lastBgFolderStatus := NoPngFiles)
    ensures folderName != "" && listing.Directory? && FrameFiles(listing.entries, folderName) != [] ==>
      var chosen := Take(FrameFiles(listing.entries, folderName), FrameLimit);
      && 1 <= |r.backgroundFrames| <= FrameLimit
      && multiset(r.backgroundFrames) == multiset(chosen)
      && SortedBy(r.backgroundFrames, le)
      && r == s.(backgroundFrames := r.backgroundFrames, currentFrameIndex := 0, bgFrameTimer := 0.0,
                 lastBgFolderStatus := SuccessStatus(|r.backgroundFrames|))
  {
    if folderName == "" {
      return s.(backgroundFrames := [], currentFrameIndex := 0, bgFrameTimer := 0.0, lastBgFolderStatus := NoFolderEntered);
    }
    match listing
    case Missing =>
      return s.(lastBgFolderStatus := "Path not found: /backgrounds/" + folderName);
    case NotADirectory =>
      return s.(lastBgFolderStatus := "Not a directory: " + folderName);
    case Directory(entries) =>
      var paths := CollectFrames(entries, folderName);
      if paths == [] {
        return s.(lastBgFolderStatus := NoPngFiles);
      }
      var frames := SortFrames(paths, le);
      assert |frames| == |multiset(frames)| == |paths|;
      r := s.(backgroundFrames := frames, currentFrameIndex := 0, bgFrameTimer := 0.0,
              lastBgFolderStatus := SuccessStatus(|frames|));
  }
}

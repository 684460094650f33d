/** The sidecar files of a folder, and which of them apply to a folder below
    (crates/scanner/src/sidecar.rs:28-40, :202-222, crates/scanner/src/sidecar/locate.rs:19-123). */
module Sidecars {
  import opened Wrappers
  import opened Orders
  import opened Paths

  const MAX_SIDECAR_BYTES: nat := 32 * 1024 * 1024
  const U64: nat := 0x1_0000_0000_0000_0000

  datatype Kind = Cover | Artist | Biography

  datatype Stat = Stat(size: nat, mtime: nat)

  /** A folder's files that are not left out: their names in order, and the size and time of each. */
  datatype Listing = Listing(names: seq<Name>, stats: map<Name, Stat>)

  ghost predicate ValidListing(listing: Listing) {
    && (forall name :: name in listing.names <==> name in listing.stats)
    && forall name :: name in listing.stats ==> listing.stats[name].size < U64 && listing.stats[name].mtime < U64
  }

  /** Where a file is, with its size and time. */
  datatype Found = Found(path: Path, stat: Stat)

  datatype Located = Located(cover: Option<Found>, artist: Option<Found>, biography: Option<Found>) {
    function Get(kind: Kind): Option<Found> {
      match kind
      case Cover => cover
      case Artist => artist
      case Biography => biography
    }

    predicate Complete() {
      cover.Some? && artist.Some? && biography.Some?
    }
  }

  const NOTHING := Located(None, None, None)

  // ---- Names ----

  function Ascii(s: string): Name {
    seq(|s|, i requires 0 <= i < |s| => if s[i] as int < 128 then s[i] as int else 0)
  }

  function Lower(name: Name): Name {
    seq(|name|, i requires 0 <= i < |name| => if 65 <= name[i] <= 90 then name[i] + 32 else name[i])
  }

  const IMAGE_EXTENSIONS := [Ascii("jpg"), Ascii("jpeg"), Ascii("png"), Ascii("webp"), Ascii("gif"), Ascii("avif")]
  const LYRICS_EXTENSIONS := [Ascii("lrc"), Ascii("txt")]
  const DOT: Byte := 46

  /** The place of a name's last dot. */
  function LastDot(name: Name): (i: Option<nat>)
    ensures i.Some? ==> i.value < |name| && name[i.value] == DOT
  {
    if name == [] then None
    else if name[|name| - 1] == DOT then Some(|name| - 1)
    else LastDot(name[..|name| - 1])
  }

  /** The first place of a name. */
  function IndexOf(names: seq<Name>, name: Name, i: nat): Option<nat>
    requires i <= |names|
    decreases |names| - i
  {
    if i == |names| then None
    else if names[i] == name then Some(i)
    else IndexOf(names, name, i + 1)
  }

  /** What kind of sidecar a name is for, and its rank among those. */
  function Candidate(name: Name): Option<(Kind, nat)> {
    var lower := Lower(name);
    if lower == Ascii("artist.txt") then Some((Biography, 0))
    else match LastDot(lower)
      case None => None
      case Some(i) =>
        match IndexOf(IMAGE_EXTENSIONS, lower[i + 1..], 0)
        case None => None
        case Some(rank) =>
          if lower[..i] == Ascii("cover") then Some((Cover, rank))
          else if lower[..i] == Ascii("artist") then Some((Artist, rank))
          else None
  }

  lemma {:induction false} LastDotAt(a: Name, b: Name)
    requires DOT !in b
    ensures LastDot(a + [DOT] + b) == Some(|a|)
  {
    var name := a + [DOT] + b;
    if b == [] {
      assert name[|name| - 1] == DOT;
    } else {
      assert name[|name| - 1] == b[|b| - 1];
      assert name[..|name| - 1] == a + [DOT] + b[..|b| - 1];
      LastDotAt(a, b[..|b| - 1]);
    }
  }

  // ---- What a folder holds itself ----

  predicate Sized(stat: Stat) {
    1 <= stat.size <= MAX_SIDECAR_BYTES
  }

  function CompareRanked(a: (nat, Name), b: (nat, Name)): Ordering {
    CompareInt(a.0, b.0).Then(CompareNames(a.1, b.1))
  }

  lemma RankedTotal()
    ensures Total(CompareRanked)
  {
    NamesTotal();
  }

  /** Whether the name may be the folder's sidecar of a kind, and its rank. */
  predicate May(listing: Listing, kind: Kind, name: Name) {
    && name in listing.stats && Sized(listing.stats[name])
    && Candidate(name).Some? && Candidate(name).value.0 == kind
  }

  function Ranked(name: Name): (nat, Name) {
    (if Candidate(name).Some? then Candidate(name).value.1 else 0, name)
  }

  /** The one that is: none comes before it. */
  ghost predicate IsBest(listing: Listing, kind: Kind, name: Name) {
    May(listing, kind, name) && forall other :: May(listing, kind, other) ==> CompareRanked(Ranked(name), Ranked(other)) != Greater
  }

  lemma OneBest(listing: Listing, kind: Kind, a: Name, b: Name)
    requires IsBest(listing, kind, a) && IsBest(listing, kind, b)
    ensures a == b
  {
    RankedTotal();
    assert CompareRanked(Ranked(a), Ranked(b)) == CompareRanked(Ranked(b), Ranked(a)).Reverse();
  }

  ghost function Best(dir: Path, listing: Listing, kind: Kind): Option<Found> {
    if exists name :: IsBest(listing, kind, name) then
      var name :| IsBest(listing, kind, name);
      Some(Found(dir + [name], listing.stats[name]))
    else None
  }

  ghost function Pick(dir: Path, listing: Listing): Located {
    Located(Best(dir, listing, Cover), Best(dir, listing, Artist), Best(dir, listing, Biography))
  }

  /** The listing of each folder that has one. */
  type Disk = Path -> Option<Listing>

  ghost predicate ValidDisk(disk: Disk) {
    forall dir :: disk(dir).Some? ==> ValidListing(disk(dir).value)
  }

  /** Whether discovery may have made the listing: it is the folder's, or empty where there is none. */
  ghost predicate Offers(disk: Disk, dir: Path, files: Listing) {
    disk(dir) == Some(files) || (disk(dir).None? && ValidListing(files) && files.names == [])
  }

  /** An empty listing has as much in it as no listing at all. */
  lemma OffersOwn(disk: Disk, dir: Path, files: Listing)
    requires Offers(disk, dir, files)
    ensures Pick(dir, files) == Own(disk, dir)
  {
    if disk(dir).None? {
      forall kind, name ensures !IsBest(files, kind, name) {
        assert name !in files.names;
      }
    }
  }

  /** The sidecars a folder holds itself. */
  ghost function Own(disk: Disk, dir: Path): Located {
    match disk(dir)
    case None => NOTHING
    case Some(listing) => Pick(dir, listing)
  }

  // ---- What applies to a folder ----

  function Or(a: Option<Found>, b: Option<Found>): Option<Found> {
    if a.Some? then a else b
  }

  predicate Inherits(root: Path, dir: Path) {
    root < dir
  }

  /** Each kind from the folder itself, or else from its parent, up to the root. */
  ghost function Applies(disk: Disk, root: Path, dir: Path): Located
    decreases |dir|
  {
    var own := Own(disk, dir);
    if Inherits(root, dir) then
      var inherited := Applies(disk, root, Parent(dir));
      Located(Or(own.cover, inherited.cover), Or(own.artist, inherited.artist), Or(own.biography, inherited.biography))
    else own
  }

  /** `at` is the folder nearest `dir`, itself or above it within the root, that has a sidecar of the kind. */
  ghost predicate Nearest(disk: Disk, root: Path, dir: Path, kind: Kind, at: Path) {
    && (at == dir || root <= at <= dir) && Own(disk, at).Get(kind).Some?
    && forall a :: at < a <= dir ==> Own(disk, a).Get(kind).None?
  }

  /** What applies is what the nearest folder has, and nothing where none has any. */
  lemma {:induction false} AppliesFromNearest(disk: Disk, root: Path, dir: Path, kind: Kind) returns (at: Path)
    ensures var found := Applies(disk, root, dir).Get(kind);
      && (found.Some? ==> Nearest(disk, root, dir, kind, at) && Own(disk, at).Get(kind) == found)
      && (found.None? ==> Own(disk, dir).Get(kind).None? && forall a :: root <= a <= dir ==> Own(disk, a).Get(kind).None?)
    decreases |dir|
  {
    at := dir;
    if Own(disk, dir).Get(kind).None? && Inherits(root, dir) {
      at := AppliesFromNearest(disk, root, Parent(dir), kind);
      hide Own;
      forall a {:trigger Own(disk, a)} | root <= a <= dir && Applies(disk, root, dir).Get(kind).None? ensures Own(disk, a).Get(kind).None? {
        UpToParent(a, dir);
      }
      forall a {:trigger Own(disk, a)} | at < a <= dir && Applies(disk, root, dir).Get(kind).Some? ensures Own(disk, a).Get(kind).None? {
        UpToParent(a, dir);
      }
    } else {
      hide Own;
      forall a {:trigger Own(disk, a)} | root <= a <= dir ensures a == dir || Own(disk, dir).Get(kind).Some? {
        if Own(disk, dir).Get(kind).None? {
          OnlyItself(root, a, dir);
        }
      }
    }
  }

  lemma OnlyItself(root: Path, a: Path, dir: Path)
    requires root <= a <= dir && !(root < dir)
    ensures a == dir
  {
    assert |root| == |dir|;
  }

  lemma UpToParent(a: Path, dir: Path)
    requires a <= dir && dir != []
    ensures a == dir || a <= Parent(dir)
  {
    if a != dir {
      assert |a| < |dir|;
    }
  }

  lemma NearestUnique(disk: Disk, root: Path, dir: Path, kind: Kind, a: Path, b: Path)
    requires Nearest(disk, root, dir, kind, a) && Nearest(disk, root, dir, kind, b)
    ensures a == b
  {
    hide Own;
    Aligned(a, b, dir);
  }

  lemma Aligned(a: Path, b: Path, dir: Path)
    requires a <= dir && b <= dir
    ensures a == b || a < b || b < a
  {
    assert a == dir[..|a|] && b == dir[..|b|];
  }

  // ---- A change to a folder ----

  /** The two differ in one folder only. */
  ghost predicate DifferAt(disk: Disk, disk': Disk, at: Path) {
    forall dir :: dir != at ==> disk(dir) == disk'(dir)
  }

  /** The change at `at` to a kind of sidecar is overridden for `dir`. */
  ghost predicate Overridden(disk: Disk, dir: Path, at: Path, kind: Kind) {
    exists a :: at < a <= dir && Own(disk, a).Get(kind).Some?
  }

  lemma {:induction false} SameAbove(disk: Disk, disk': Disk, root: Path, at: Path, dir: Path)
    requires DifferAt(disk, disk', at) && !(at <= dir)
    ensures Applies(disk, root, dir) == Applies(disk', root, dir)
    decreases |dir|
  {
    if Inherits(root, dir) {
      SameAbove(disk, disk', root, at, Parent(dir));
    }
  }

  /** What a folder has of its own is in it. */
  lemma OwnIsIn(disk: Disk, dir: Path, kind: Kind)
    ensures var own := Own(disk, dir).Get(kind); own.Some? ==> own.value.path != [] && Parent(own.value.path) == dir
  {
  }

  lemma {:induction false} AppliesIsAbove(disk: Disk, root: Path, dir: Path, kind: Kind)
    ensures var found := Applies(disk, root, dir).Get(kind); found.Some? ==> found.value.path != [] && Parent(found.value.path) <= dir
    decreases |dir|
  {
    OwnIsIn(disk, dir, kind);
    if Inherits(root, dir) {
      AppliesIsAbove(disk, root, Parent(dir), kind);
    }
  }

  /** A change in a folder changes what applies to one below it just if the sidecar of some kind changes there,
      and no nearer folder has one of that kind. */
  lemma {:induction false} ChangesUnlessOverridden(disk: Disk, disk': Disk, root: Path, at: Path, dir: Path, kind: Kind)
    requires DifferAt(disk, disk', at) && root <= at <= dir
    ensures Applies(disk, root, dir).Get(kind) == Applies(disk', root, dir).Get(kind) <==>
      Own(disk, at).Get(kind) == Own(disk', at).Get(kind) || Overridden(disk, dir, at, kind)
    decreases |dir|
  {
    hide Own;
    if dir == at {
      OwnIsIn(disk, at, kind);
      OwnIsIn(disk', at, kind);
      if Inherits(root, at) {
        SameAbove(disk, disk', root, at, Parent(at));
        AppliesIsAbove(disk, root, Parent(at), kind);
      }
      assert !Overridden(disk, dir, at, kind);
    } else {
      UpToParent(at, dir);
      ChangesUnlessOverridden(disk, disk', root, at, Parent(dir), kind);
      SameOwn(disk, disk', dir);
      OverriddenBelow(disk, dir, at, kind);
    }
  }

  lemma SameOwn(disk: Disk, disk': Disk, dir: Path)
    requires disk(dir) == disk'(dir)
    ensures Own(disk, dir) == Own(disk', dir)
  {
  }

  lemma OverriddenBelow(disk: Disk, dir: Path, at: Path, kind: Kind)
    requires at < dir
    ensures Overridden(disk, dir, at, kind) <==> Own(disk, dir).Get(kind).Some? || Overridden(disk, Parent(dir), at, kind)
  {
    hide Own;
    forall a {:trigger Own(disk, a)} | a <= dir ensures a == dir || a <= Parent(dir) {
      UpToParent(a, dir);
    }
  }
}

/** A track's lyrics file, and the stamp of what it resolves (crates/scanner/src/sidecar.rs:174-200,
    crates/scanner/src/sidecar/locate.rs:39-78, :125-172). The hash is ideal: it tells all it is fed apart. */
module SidecarStamps {
  import opened Wrappers
  import opened Paths
  import opened Bytes
  import opened Sidecars

  // ---- Lyrics ----

  /** A name up to its last dot, unless that is where it begins. */
  function FileStem(name: Name): Name {
    match LastDot(name)
    case None => name
    case Some(i) => if i == 0 then name else name[..i]
  }

  function Extension(name: Name): Option<Name> {
    match LastDot(name)
    case None => None
    case Some(i) => if i == 0 then None else Some(name[i + 1..])
  }

  /** The first of `names`, from the `i`th, that folds to `lower`. */
  function FirstFolded(names: seq<Name>, lower: Name, i: nat): Option<Name>
    requires i <= |names|
    decreases |names| - i
  {
    if i == |names| then None
    else if Lower(names[i]) == lower then Some(names[i])
    else FirstFolded(names, lower, i + 1)
  }

  /** The file listed by the name wanted, or else the first that differs from it only in case. */
  function Listed(listing: Listing, wanted: Name): Option<Name> {
    if wanted in listing.stats then Some(wanted) else FirstFolded(listing.names, Lower(wanted), 0)
  }

  /** A track's lyrics file: of the first extension any file has, and none if that file is not sized as one. */
  function LyricsFor(dir: Path, audio: Name, listing: Listing): Option<Found>
    requires ValidListing(listing)
  {
    LyricsFrom(dir, audio, listing, 0)
  }

  function LyricsFrom(dir: Path, audio: Name, listing: Listing, i: nat): Option<Found>
    requires ValidListing(listing) && i <= |LYRICS_EXTENSIONS|
    decreases |LYRICS_EXTENSIONS| - i
  {
    if i == |LYRICS_EXTENSIONS| then None
    else
      match Listed(listing, FileStem(audio) + [DOT] + LYRICS_EXTENSIONS[i])
      case None => LyricsFrom(dir, audio, listing, i + 1)
      case Some(name) =>
        FirstFoldedIn(listing.names, Lower(FileStem(audio) + [DOT] + LYRICS_EXTENSIONS[i]), 0);
        if Sized(listing.stats[name]) then Some(Found(dir + [name], listing.stats[name])) else None
  }

  lemma {:induction false} FirstFoldedIn(names: seq<Name>, lower: Name, i: nat)
    requires i <= |names|
    ensures var found := FirstFolded(names, lower, i); found.Some? ==> found.value in names && Lower(found.value) == lower
    decreases |names| - i
  {
    if i < |names| && Lower(names[i]) != lower {
      FirstFoldedIn(names, lower, i + 1);
    }
  }

  // ---- What is hashed ----

  const SLASH: Byte := 47

  function PathBytes(path: Path): Name {
    if path == [] then [] else PathBytes(path[..|path| - 1]) + [SLASH] + path[|path| - 1]
  }

  /** Names hold no slash, and lengths and times fit their 64 bits. */
  ghost predicate Proper(found: Found) {
    && (forall i :: 0 <= i < |found.path| ==> SLASH !in found.path[i])
    && |PathBytes(found.path)| < U64
    && found.stat.size < U64 && found.stat.mtime < U64
  }

  ghost predicate AllProper(located: Located) {
    forall kind: Kind :: located.Get(kind).Some? ==> Proper(located.Get(kind).value)
  }

  function Feed(found: Found): Name {
    var path := PathBytes(found.path);
    Little(|path|, 8) + path + Little(found.stat.size, 8) + Little(found.stat.mtime, 8)
  }

  function FeedKind(found: Option<Found>): Name {
    if found.None? then [0] else [1] + Feed(found.value)
  }

  function FeedAll(located: Located): Name {
    FeedKind(located.cover) + FeedKind(located.artist) + FeedKind(located.biography)
  }

  /** A digest of the sidecars, and of a lyrics file after it where there is one. */
  datatype Stamp = OfSidecars(fed: Name) | WithLyrics(fed: Name, lyrics: Name)

  function StampOf(located: Located, lyrics: Option<Found>): Stamp {
    if lyrics.None? then OfSidecars(FeedAll(located)) else WithLyrics(FeedAll(located), Feed(lyrics.value))
  }

  lemma {:induction false} PathUnique(a: Path, b: Path)
    requires forall i :: 0 <= i < |a| ==> SLASH !in a[i]
    requires forall i :: 0 <= i < |b| ==> SLASH !in b[i]
    requires PathBytes(a) == PathBytes(b)
    ensures a == b
  {
    if a != [] && b != [] {
      var (p, q) := (a[|a| - 1], b[|b| - 1]);
      var (x, y) := (PathBytes(a[..|a| - 1]), PathBytes(b[..|b| - 1]));
      LastPart(x, p, y, q);
      PathUnique(a[..|a| - 1], b[..|b| - 1]);
    }
  }

  lemma LastPart(x: Name, p: Name, y: Name, q: Name)
    requires SLASH !in p && SLASH !in q && x + [SLASH] + p == y + [SLASH] + q
    ensures x == y && p == q
  {
    var z := x + [SLASH] + p;
    LastSlash(x, p);
    LastSlash(y, q);
    assert x == z[..|x|] && y == z[..|y|] && p == z[|x| + 1..] && q == z[|y| + 1..];
  }

  lemma LastSlash(x: Name, p: Name)
    requires SLASH !in p
    ensures var z := x + [SLASH] + p; z[|x|] == SLASH && forall k :: |x| < k < |z| ==> z[k] != SLASH
  {
    var z := x + [SLASH] + p;
    assert forall k :: |x| < k < |z| ==> z[k] == p[k - |x| - 1];
  }

  lemma Cut(a: Name, x: Name, b: Name, y: Name)
    requires a + x == b + y && |a| == |b|
    ensures a == b && x == y
  {
    assert a == (a + x)[..|a|] && b == (b + y)[..|b|] && x == (a + x)[|a|..] && y == (b + y)[|b|..];
  }

  lemma Regroup(a: Name, b: Name, c: Name, d: Name, e: Name)
    ensures (a + b + c + d) + e == a + (b + (c + (d + e)))
  {
  }

  lemma Limit8()
    ensures Limit(8) == U64
  {
    assert Limit(4) == 0x1_0000_0000;
    assert Limit(8) == 0x1_0000_0000 * Limit(4);
  }

  /** A file's bytes, whatever follows, are of that file alone. */
  lemma FeedUnique(a: Found, x: Name, b: Found, y: Name)
    requires Proper(a) && Proper(b) && Feed(a) + x == Feed(b) + y
    ensures a == b && x == y
  {
    hide Little, PathBytes;
    var (p, q) := (PathBytes(a.path), PathBytes(b.path));
    var (s, t) := (Little(a.stat.size, 8), Little(b.stat.size, 8));
    var (m, n) := (Little(a.stat.mtime, 8), Little(b.stat.mtime, 8));
    Regroup(Little(|p|, 8), p, s, m, x);
    Regroup(Little(|q|, 8), q, t, n, y);
    Limit8();
    Cut(Little(|p|, 8), p + (s + (m + x)), Little(|q|, 8), q + (t + (n + y)));
    LittleUnique(|p|, |q|, 8);
    Cut(p, s + (m + x), q, t + (n + y));
    Cut(s, m + x, t, n + y);
    Cut(m, x, n, y);
    PathUnique(a.path, b.path);
    LittleUnique(a.stat.size, b.stat.size, 8);
    LittleUnique(a.stat.mtime, b.stat.mtime, 8);
  }

  lemma FeedKindUnique(a: Option<Found>, x: Name, b: Option<Found>, y: Name)
    requires (a.Some? ==> Proper(a.value)) && (b.Some? ==> Proper(b.value)) && FeedKind(a) + x == FeedKind(b) + y
    ensures a == b && x == y
  {
    hide Feed, Proper;
    assert (FeedKind(a) + x)[0] == FeedKind(a)[0] && (FeedKind(b) + y)[0] == FeedKind(b)[0];
    if a.Some? && b.Some? {
      assert FeedKind(a) + x == [1] + (Feed(a.value) + x) && FeedKind(b) + y == [1] + (Feed(b.value) + y);
      Cut([1], Feed(a.value) + x, [1], Feed(b.value) + y);
      FeedUnique(a.value, x, b.value, y);
    } else if a.None? && b.None? {
      Cut([0], x, [0], y);
    }
  }

  lemma FeedAllUnique(a: Located, b: Located)
    requires AllProper(a) && AllProper(b) && FeedAll(a) == FeedAll(b)
    ensures a == b
  {
    EachProper(a);
    EachProper(b);
    hide FeedKind, Proper, AllProper;
    Regroup3(FeedKind(a.cover), FeedKind(a.artist), FeedKind(a.biography));
    Regroup3(FeedKind(b.cover), FeedKind(b.artist), FeedKind(b.biography));
    var (x, y) := (FeedKind(a.artist) + (FeedKind(a.biography) + []), FeedKind(b.artist) + (FeedKind(b.biography) + []));
    hide FeedAll;
    FeedKindUnique(a.cover, x, b.cover, y);
    FeedKindUnique(a.artist, FeedKind(a.biography) + [], b.artist, FeedKind(b.biography) + []);
    FeedKindUnique(a.biography, [], b.biography, []);
  }

  lemma EachProper(a: Located)
    requires AllProper(a)
    ensures (a.cover.Some? ==> Proper(a.cover.value)) && (a.artist.Some? ==> Proper(a.artist.value))
    ensures a.biography.Some? ==> Proper(a.biography.value)
  {
    assert a.Get(Cover) == a.cover && a.Get(Artist) == a.artist && a.Get(Biography) == a.biography;
  }

  lemma Regroup3(a: Name, b: Name, c: Name)
    ensures a + b + c == a + (b + (c + []))
  {
  }

  /** Two stamps are equal just if the same sidecars and lyrics file were stamped, of the same sizes and times. */
  lemma StampsEqual(a: Located, b: Located, la: Option<Found>, lb: Option<Found>)
    requires AllProper(a) && AllProper(b) && (la.Some? ==> Proper(la.value)) && (lb.Some? ==> Proper(lb.value))
    ensures StampOf(a, la) == StampOf(b, lb) <==> a == b && la == lb
  {
    if StampOf(a, la) == StampOf(b, lb) {
      hide Feed, FeedAll, Proper, AllProper;
      FeedAllUnique(a, b);
      if la.Some? {
        assert Feed(la.value) + [] == Feed(lb.value) + [];
        FeedUnique(la.value, [], lb.value, []);
      }
    }
  }
}

/** Which names are sidecars and lyrics files, in terms of the names themselves
    (crates/scanner/src/sidecar/locate.rs:80-171). */
module SidecarNames {
  import opened Wrappers
  import opened Orders
  import opened Paths
  import opened Sidecars
  import opened SidecarStamps

  // ---- Case ----

  /** The same byte, or the two cases of one letter. */
  predicate SameLetter(a: Byte, b: Byte) {
    a == b || (65 <= a <= 90 && b == a + 32) || (65 <= b <= 90 && a == b + 32)
  }

  /** Names that differ in case alone. */
  predicate SameButCase(a: Name, b: Name) {
    |a| == |b| && forall i :: 0 <= i < |a| ==> SameLetter(a[i], b[i])
  }

  lemma LowerAlike(a: Name, b: Name)
    ensures Lower(a) == Lower(b) <==> SameButCase(a, b)
  {
    if Lower(a) == Lower(b) {
      assert |a| == |b|;
      forall i | 0 <= i < |a| ensures SameLetter(a[i], b[i]) {
        assert Lower(a)[i] == Lower(b)[i];
      }
    }
  }

  const COVER: Name := [99, 111, 118, 101, 114]
  const ARTIST: Name := [97, 114, 116, 105, 115, 116]
  const TXT: Name := [116, 120, 116]
  const LRC: Name := [108, 114, 99]
  const IMAGES: seq<Name> := [
    [106, 112, 103], [106, 112, 101, 103], [112, 110, 103], [119, 101, 98, 112], [103, 105, 102], [97, 118, 105, 102]
  ]

  lemma Spelled()
    ensures Ascii("cover") == COVER && Ascii("artist") == ARTIST && Ascii("artist.txt") == ARTIST + [DOT] + TXT
    ensures IMAGE_EXTENSIONS == IMAGES && LYRICS_EXTENSIONS == [LRC, TXT]
  {
    assert Ascii("jpg") == IMAGES[0];
    assert Ascii("jpeg") == IMAGES[1];
    assert Ascii("png") == IMAGES[2];
    assert Ascii("webp") == IMAGES[3];
    assert Ascii("gif") == IMAGES[4];
    assert Ascii("avif") == IMAGES[5];
    assert Ascii("lrc") == LRC && Ascii("txt") == TXT;
  }

  /** What a candidate is called, but for case. */
  predicate Called(name: Name, kind: Kind, rank: nat) {
    match kind
    case Biography => rank == 0 && SameButCase(name, ARTIST + [DOT] + TXT)
    case Cover => rank < |IMAGES| && SameButCase(name, COVER + [DOT] + IMAGES[rank])
    case Artist => rank < |IMAGES| && SameButCase(name, ARTIST + [DOT] + IMAGES[rank])
  }

  lemma {:induction false} LastDotSplits(name: Name)
    ensures LastDot(name).Some? ==>
      var i := LastDot(name).value;
      name == name[..i] + [DOT] + name[i + 1..] && DOT !in name[i + 1..]
  {
    if name != [] && name[|name| - 1] != DOT {
      var front := name[..|name| - 1];
      LastDotSplits(front);
      if LastDot(front).Some? {
        var i := LastDot(front).value;
        assert name[i + 1..] == front[i + 1..] + [name[|name| - 1]];
      }
    }
  }

  lemma {:induction false} IndexOfIs(names: seq<Name>, name: Name, i: nat)
    requires i <= |names|
    ensures var found := IndexOf(names, name, i);
      && (found.Some? ==> i <= found.value < |names| && names[found.value] == name)
      && (found.None? ==> forall k :: i <= k < |names| ==> names[k] != name)
    decreases |names| - i
  {
    if i < |names| && names[i] != name {
      IndexOfIs(names, name, i + 1);
    }
  }

  lemma ImagesApart(j: nat, k: nat)
    requires j < |IMAGES| && k < |IMAGES|
    ensures DOT !in IMAGES[j] && IMAGES[j] != TXT && (IMAGES[j] == IMAGES[k] ==> j == k)
  {
    assert IMAGES[j][0] != TXT[0];
    var key := (i: nat) requires i < |IMAGES| => |IMAGES[i]| * 256 + IMAGES[i][0];
    assert key(j) == key(k) ==> j == k;
  }

  /** A name split at its last dot. */
  lemma SplitUnique(a: Name, b: Name, c: Name, d: Name)
    requires DOT !in b && DOT !in d && a + [DOT] + b == c + [DOT] + d
    ensures a == c && b == d
  {
    var name := a + [DOT] + b;
    LastDotAt(a, b);
    LastDotAt(c, d);
    assert a == name[..|a|] && c == name[..|c|] && b == name[|a| + 1..] && d == name[|c| + 1..];
  }

  lemma PlainText()
    ensures DOT !in TXT && DOT !in LRC
  {
  }

  /** What makes a name in lower case a candidate. */
  predicate CalledLower(lower: Name, kind: Kind, rank: nat) {
    match kind
    case Biography => rank == 0 && lower == ARTIST + [DOT] + TXT
    case Cover => rank < |IMAGES| && lower == COVER + [DOT] + IMAGES[rank]
    case Artist => rank < |IMAGES| && lower == ARTIST + [DOT] + IMAGES[rank]
  }

  /** No name is two kinds of candidate, nor of two ranks. */
  lemma CalledOnce(lower: Name, a: Kind, i: nat, b: Kind, j: nat)
    requires CalledLower(lower, a, i) && CalledLower(lower, b, j)
    ensures a == b && i == j
  {
    var (x, y) := (if a.Cover? then COVER else ARTIST, if b.Cover? then COVER else ARTIST);
    var (p, q) := (if a.Biography? then TXT else IMAGES[i], if b.Biography? then TXT else IMAGES[j]);
    PlainText();
    ImagesApart(if a.Biography? then 0 else i, if b.Biography? then 0 else j);
    ImagesApart(if b.Biography? then 0 else j, 0);
    SplitUnique(x, p, y, q);
    assert |COVER| != |ARTIST|;
  }

  lemma CandidateCalled(name: Name)
    ensures Candidate(name).Some? ==> CalledLower(Lower(name), Candidate(name).value.0, Candidate(name).value.1)
  {
    Spelled();
    var lower := Lower(name);
    hide Ascii, Lower, LastDot, IndexOf;
    LastDotSplits(lower);
    if LastDot(lower).Some? {
      IndexOfIs(IMAGE_EXTENSIONS, lower[LastDot(lower).value + 1..], 0);
    }
  }

  lemma CalledIsCandidate(name: Name, kind: Kind, rank: nat)
    requires CalledLower(Lower(name), kind, rank)
    ensures Candidate(name).Some?
  {
    Spelled();
    var lower := Lower(name);
    hide Ascii, Lower, LastDot, IndexOf;
    if !kind.Biography? {
      var stem := if kind.Cover? then COVER else ARTIST;
      ImagesApart(rank, rank);
      LastDotAt(stem, IMAGES[rank]);
      assert lower[..|stem|] == stem && lower[|stem| + 1..] == IMAGES[rank];
      IndexOfIs(IMAGE_EXTENSIONS, IMAGES[rank], 0);
    }
  }

  lemma CalledInLower(name: Name, kind: Kind, rank: nat)
    ensures CalledLower(Lower(name), kind, rank) <==> Called(name, kind, rank)
  {
    if !kind.Biography? && rank >= |IMAGES| {
      return;
    }
    var stem := if kind.Cover? then COVER else ARTIST;
    var ext := if kind.Biography? then TXT else IMAGES[rank];
    var whole := stem + [DOT] + ext;
    assert Lower(whole) == whole;
    LowerAlike(name, whole);
  }

  /** A candidate for a biography is `artist.txt`, and one for an image is `cover` or `artist` with the image extension its
      rank is the place of, in any case; there are no others. */
  lemma CandidateExactly(name: Name, kind: Kind, rank: nat)
    ensures Candidate(name) == Some((kind, rank)) <==> Called(name, kind, rank)
  {
    hide Candidate, Called, CalledLower, Lower;
    CalledInLower(name, kind, rank);
    CandidateCalled(name);
    if CalledLower(Lower(name), kind, rank) {
      CalledIsCandidate(name, kind, rank);
      CalledOnce(Lower(name), kind, rank, Candidate(name).value.0, Candidate(name).value.1);
    }
  }

  // ---- A folder's own sidecars ----

  /** A file that may be a folder's sidecar: one called so, of 1 byte to 32 MiB. */
  ghost predicate Fits(listing: Listing, kind: Kind, name: Name, rank: nat) {
    name in listing.stats && 1 <= listing.stats[name].size <= 33554432 && Called(name, kind, rank)
  }

  /** The least rank, and of that rank the first by its bytes. */
  ghost predicate Chosen(listing: Listing, kind: Kind, name: Name, rank: nat) {
    && Fits(listing, kind, name, rank)
    && forall other, r :: Fits(listing, kind, other, r) && other != name ==>
      rank < r || (rank == r && exists k: nat :: NameBefore(name, other, k))
  }

  lemma FitsIsMay(listing: Listing, kind: Kind, name: Name)
    ensures May(listing, kind, name) ==> Fits(listing, kind, name, Ranked(name).0)
    ensures forall rank: nat :: Fits(listing, kind, name, rank) ==> May(listing, kind, name) && Ranked(name).0 == rank
  {
    hide Candidate, Called;
    forall rank: nat | Called(name, kind, rank) ensures Candidate(name) == Some((kind, rank)) {
      CandidateExactly(name, kind, rank);
    }
    if Candidate(name).Some? {
      CandidateExactly(name, kind, Candidate(name).value.1);
    }
  }

  lemma RankedOrder(a: (nat, Name), b: (nat, Name))
    requires a != b
    ensures CompareRanked(a, b) != Greater <==> a.0 < b.0 || (a.0 == b.0 && exists k: nat :: NameBefore(a.1, b.1, k))
  {
    NamesTotal();
    NameOrder(a.1, b.1);
  }

  lemma ChosenIsBest(listing: Listing, kind: Kind, name: Name, rank: nat)
    ensures Chosen(listing, kind, name, rank) <==> IsBest(listing, kind, name) && Ranked(name).0 == rank
  {
    FitsIsMay(listing, kind, name);
    RankedTotal();
    assert CompareRanked(Ranked(name), Ranked(name)) == CompareRanked(Ranked(name), Ranked(name)).Reverse();
    hide Candidate, Called, CompareRanked, Ranked, Fits, May;
    if Chosen(listing, kind, name, rank) {
      forall other | May(listing, kind, other) ensures CompareRanked(Ranked(name), Ranked(other)) != Greater {
        FitsIsMay(listing, kind, other);
        ComparesAs(name, other);
      }
    }
    if IsBest(listing, kind, name) && Ranked(name).0 == rank {
      forall other, r: nat | Fits(listing, kind, other, r) && other != name
        ensures rank < r || (rank == r && exists k: nat :: NameBefore(name, other, k)) {
        FitsIsMay(listing, kind, other);
        ComparesAs(name, other);
      }
    }
  }

  lemma ComparesAs(a: Name, b: Name)
    ensures a != b ==>
      (CompareRanked(Ranked(a), Ranked(b)) != Greater <==>
       Ranked(a).0 < Ranked(b).0 || (Ranked(a).0 == Ranked(b).0 && exists k: nat :: NameBefore(a, b, k)))
  {
    if a != b {
      RankedOrder(Ranked(a), Ranked(b));
    }
  }

  /** Of some names, one that none comes before. */
  lemma {:induction false} BestAmong(listing: Listing, kind: Kind, names: set<Name>) returns (best: Name)
    requires names != {} && forall n :: n in names ==> May(listing, kind, n)
    ensures best in names && forall n :: n in names ==> CompareRanked(Ranked(best), Ranked(n)) != Greater
    decreases |names|
  {
    RankedTotal();
    hide CompareRanked, May, Candidate, Ranked;
    best :| best in names;
    assert CompareRanked(Ranked(best), Ranked(best)) == CompareRanked(Ranked(best), Ranked(best)).Reverse();
    var rest := names - {best};
    if rest != {} {
      var other := BestAmong(listing, kind, rest);
      if CompareRanked(Ranked(best), Ranked(other)) == Greater {
        assert CompareRanked(Ranked(other), Ranked(best)) == CompareRanked(Ranked(best), Ranked(other)).Reverse();
        best := other;
      }
    }
  }

  /** A folder holds a sidecar of a kind just if some file in it fits, and it is then the one chosen. */
  lemma OwnExactly(disk: Disk, dir: Path, kind: Kind)
    ensures Own(disk, dir).Get(kind).Some? <==>
      disk(dir).Some? && exists name, rank :: Fits(disk(dir).value, kind, name, rank)
    ensures forall name, rank :: disk(dir).Some? && Chosen(disk(dir).value, kind, name, rank) ==>
      Own(disk, dir).Get(kind) == Some(Found(dir + [name], disk(dir).value.stats[name]))
    ensures Own(disk, dir).Get(kind).Some? ==>
      exists name, rank :: Chosen(disk(dir).value, kind, name, rank)
  {
    if disk(dir).Some? {
      BestExactly(dir, disk(dir).value, kind);
    }
  }

  lemma BestExactly(dir: Path, listing: Listing, kind: Kind)
    ensures Best(dir, listing, kind).Some? <==> exists name, rank :: Fits(listing, kind, name, rank)
    ensures forall name, rank :: Chosen(listing, kind, name, rank) ==> Best(dir, listing, kind) == Some(Found(dir + [name], listing.stats[name]))
    ensures Best(dir, listing, kind).Some? ==> exists name, rank :: Chosen(listing, kind, name, rank)
  {
    hide Candidate, Called, CompareRanked, Ranked;
    forall name, rank | Chosen(listing, kind, name, rank) ensures Best(dir, listing, kind) == Some(Found(dir + [name], listing.stats[name])) {
      hide Chosen;
      ChosenIsBest(listing, kind, name, rank);
      forall other | IsBest(listing, kind, other) ensures other == name {
        OneBest(listing, kind, other, name);
      }
    }
    if name, rank: nat :| Fits(listing, kind, name, rank) {
      FitsIsMay(listing, kind, name);
      var names := set n | n in listing.stats && May(listing, kind, n);
      assert name in names;
      var best := BestAmong(listing, kind, names);
      assert IsBest(listing, kind, best);
    }
    if Best(dir, listing, kind).Some? {
      var best :| IsBest(listing, kind, best);
      ChosenIsBest(listing, kind, best, Ranked(best).0);
      assert Chosen(listing, kind, best, Ranked(best).0);
    }
  }

  // ---- A track's lyrics file ----

  /** A name without its extension; a dot it begins with starts none. */
  ghost predicate IsStem(name: Name, stem: Name) {
    || (stem == name && forall i :: 1 <= i < |name| ==> name[i] != DOT)
    || (stem != [] && stem < name && name[|stem|] == DOT && DOT !in name[|stem| + 1..])
  }

  lemma StemExactly(name: Name, stem: Name)
    ensures FileStem(name) == stem <==> IsStem(name, stem)
  {
    StemIs(name);
    hide FileStem, IsStem;
    if IsStem(name, stem) {
      StemUnique(name, stem, FileStem(name));
    }
  }

  lemma StemIs(name: Name)
    ensures IsStem(name, FileStem(name))
  {
    LastDotSplits(name);
    DotlessNone(name);
    if LastDot(name).Some? {
      var k := LastDot(name).value;
      hide LastDot;
      forall i | k < i < |name| ensures name[i] != DOT {
        assert name[i] == name[k + 1..][i - k - 1];
      }
    }
  }

  /** A stem is followed by the last dot of the name, if by anything, and that is not the first byte. */
  lemma StemEnds(name: Name, stem: Name)
    requires IsStem(name, stem)
    ensures stem == name[..|stem|] && (|stem| < |name| ==> 1 <= |stem| && name[|stem|] == DOT)
    ensures forall i :: 1 <= i < |name| && |stem| < i ==> name[i] != DOT
    ensures |stem| == |name| ==> forall i :: 1 <= i < |name| ==> name[i] != DOT
  {
    forall i | |stem| < i < |name| ensures name[i] != DOT {
      assert name[i] == name[|stem| + 1..][i - |stem| - 1];
    }
  }

  lemma StemUnique(name: Name, a: Name, b: Name)
    requires IsStem(name, a) && IsStem(name, b)
    ensures a == b
  {
    StemEnds(name, a);
    StemEnds(name, b);
    hide IsStem;
    assert |a| == |b|;
  }

  lemma {:induction false} DotlessNone(name: Name)
    ensures LastDot(name).None? <==> DOT !in name
  {
    if name != [] {
      assert name == name[..|name| - 1] + [name[|name| - 1]];
      DotlessNone(name[..|name| - 1]);
    }
  }

  /** The file of just the name wanted, or where there is none, the first listed that differs from it in case alone. */
  ghost predicate Answers(listing: Listing, wanted: Name, name: Name) {
    if wanted in listing.stats then name == wanted
    else exists i :: FirstAlike(listing.names, wanted, name, i)
  }

  ghost predicate FirstAlike(names: seq<Name>, wanted: Name, name: Name, i: int) {
    0 <= i < |names| && names[i] == name && SameButCase(name, wanted) && forall j :: 0 <= j < i ==> !SameButCase(names[j], wanted)
  }

  lemma {:induction false} FirstFoldedAt(names: seq<Name>, wanted: Name, i: nat)
    requires i <= |names| && forall j :: 0 <= j < i ==> !SameButCase(names[j], wanted)
    ensures var found := FirstFolded(names, Lower(wanted), i);
      && (found.None? ==> forall j :: 0 <= j < |names| ==> !SameButCase(names[j], wanted))
      && (found.Some? ==> exists k :: FirstAlike(names, wanted, found.value, k))
    decreases |names| - i
  {
    hide Lower, SameButCase;
    if i < |names| {
      LowerAlike(names[i], wanted);
      if SameButCase(names[i], wanted) {
        assert FirstAlike(names, wanted, names[i], i);
      } else {
        FirstFoldedAt(names, wanted, i + 1);
      }
    }
  }

  lemma ListedExactly(listing: Listing, wanted: Name, name: Name)
    ensures Listed(listing, wanted) == Some(name) <==> Answers(listing, wanted, name)
  {
    FirstFoldedAt(listing.names, wanted, 0);
    hide Lower, SameButCase;
    forall n, m, i, j | FirstAlike(listing.names, wanted, n, i) && FirstAlike(listing.names, wanted, m, j) ensures n == m {
      assert i == j;
    }
  }

  /** An `.lrc` file, or where there is none, a `.txt` file. */
  ghost predicate NamesLyrics(listing: Listing, stem: Name, name: Name) {
    || Answers(listing, stem + [DOT] + LRC, name)
    || ((forall other :: !Answers(listing, stem + [DOT] + LRC, other)) && Answers(listing, stem + [DOT] + TXT, name))
  }

  /** A track's lyrics file is the one its stem names, just if that is of 1 byte to 32 MiB. */
  lemma LyricsExactly(dir: Path, audio: Name, listing: Listing, found: Found)
    requires ValidListing(listing)
    ensures LyricsFor(dir, audio, listing) == Some(found) <==>
      exists name :: NamesLyrics(listing, FileStem(audio), name) && name in listing.stats
        && 1 <= listing.stats[name].size <= 33554432 && found == Found(dir + [name], listing.stats[name])
  {
    Spelled();
    var stem := FileStem(audio);
    hide FileStem, Lower, Ascii, Answers;
    forall name ensures (Answers(listing, stem + [DOT] + LRC, name) <==> Listed(listing, stem + [DOT] + LRC) == Some(name))
                     && (Answers(listing, stem + [DOT] + TXT, name) <==> Listed(listing, stem + [DOT] + TXT) == Some(name)) {
      ListedExactly(listing, stem + [DOT] + LRC, name);
      ListedExactly(listing, stem + [DOT] + TXT, name);
    }
    FirstFoldedIn(listing.names, Lower(stem + [DOT] + LRC), 0);
    FirstFoldedIn(listing.names, Lower(stem + [DOT] + TXT), 0);
    assert LyricsFor(dir, audio, listing) == LyricsFrom(dir, audio, listing, 0);
    hide Listed;
    LyricsInTurn(dir, audio, listing);
  }

  lemma LyricsInTurn(dir: Path, audio: Name, listing: Listing)
    requires ValidListing(listing)
    ensures var (lrc, txt) := (Listed(listing, FileStem(audio) + [DOT] + LRC), Listed(listing, FileStem(audio) + [DOT] + TXT));
      var name := if lrc.Some? then lrc else txt;
      && (name.Some? ==> name.value in listing.stats)
      && LyricsFrom(dir, audio, listing, 0) ==
        if name.Some? && Sized(listing.stats[name.value]) then Some(Found(dir + [name.value], listing.stats[name.value])) else None
  {
    Spelled();
    var stem := FileStem(audio);
    hide FileStem, Lower, Ascii;
    FirstFoldedIn(listing.names, Lower(stem + [DOT] + LRC), 0);
    FirstFoldedIn(listing.names, Lower(stem + [DOT] + TXT), 0);
    hide FirstFolded;
    assert LyricsFrom(dir, audio, listing, 2) == None;
  }
}

/** The resolver of one scan, which locates each folder once, reads each file once, and keeps what it found
    (crates/scanner/src/sidecar.rs:115-250, crates/scanner/src/sidecar/locate.rs:80-172). */
module SidecarResolvers {
  import opened Wrappers
  import opened Orders
  import opened Sequences
  import opened Sorting
  import opened Paths
  import opened Sidecars
  import opened SidecarStamps

  type Contents = seq<Byte>

  /** A file's contents, if there are any of the kind wanted. */
  type Reader = Path -> Option<Contents>

  // ---- Picking ----

  /** The candidates of a kind among `names`, with their ranks. */
  ghost predicate Collects(ranked: seq<(nat, Name)>, kind: Kind, names: seq<Name>) {
    forall x :: x in ranked <==> x.1 in names && Candidate(x.1) == Some((kind, x.0))
  }

  lemma CollectsOne(ranked: seq<(nat, Name)>, kind: Kind, names: seq<Name>, i: nat)
    requires i < |names| && Collects(ranked, kind, names[..i])
    ensures Candidate(names[i]).Some? && Candidate(names[i]).value.0 == kind ==>
      Collects(ranked + [(Candidate(names[i]).value.1, names[i])], kind, names[..i + 1])
    ensures Candidate(names[i]).None? || Candidate(names[i]).value.0 != kind ==> Collects(ranked, kind, names[..i + 1])
  {
    hide Candidate;
    assert forall name :: name in names[..i + 1] <==> name in names[..i] || name == names[i];
  }

  /** All a listing's candidates of a kind, with their ranks. */
  ghost predicate Ranks(ranked: seq<(nat, Name)>, kind: Kind, listing: Listing) {
    forall x :: x in ranked <==> x.1 in listing.stats && Candidate(x.1) == Some((kind, x.0))
  }

  lemma RanksInOrder(ranked: seq<(nat, Name)>, kind: Kind, listing: Listing)
    requires Ranks(ranked, kind, listing)
    ensures Ranks(Sort(CompareRanked, ranked), kind, listing) && SortedBy(CompareRanked, Sort(CompareRanked, ranked))
  {
    hide Candidate, CompareRanked, Sort;
    RankedTotal();
    SortSorts(CompareRanked, ranked);
    forall x ensures x in Sort(CompareRanked, ranked) <==> x in ranked {
      assert x in multiset(Sort(CompareRanked, ranked)) <==> x in multiset(ranked);
    }
  }

  /** Of a kind's candidates, ranked, the first a sidecar's size. */
  method FirstSized(dir: Path, listing: Listing, ghost kind: Kind, ranked: seq<(nat, Name)>) returns (found: Option<Found>)
    requires Ranks(ranked, kind, listing)
    ensures found == Best(dir, listing, kind)
  {
    hide Candidate, CompareRanked, Sort, Best;
    var sorted := Sort(CompareRanked, ranked);
    RanksInOrder(ranked, kind, listing);
    for i := 0 to |sorted|
      invariant forall j :: 0 <= j < i ==> !Sized(listing.stats[sorted[j].1])
    {
      var name := sorted[i].1;
      if Sized(listing.stats[name]) {
        FirstIsBest(listing, kind, sorted, i);
        BestOnly(dir, listing, kind, name);
        return Some(Found(dir + [name], listing.stats[name]));
      }
    }
    found := None;
    NoneSized(dir, listing, kind, sorted);
  }

  lemma NoneSized(dir: Path, listing: Listing, kind: Kind, sorted: seq<(nat, Name)>)
    requires Ranks(sorted, kind, listing) && forall j :: 0 <= j < |sorted| ==> !Sized(listing.stats[sorted[j].1])
    ensures Best(dir, listing, kind).None?
  {
    hide Candidate, CompareRanked;
    forall name | May(listing, kind, name) ensures Ranked(name) in sorted {
    }
    assert forall name :: Ranked(name) in sorted ==> !Sized(listing.stats[name]);
  }

  lemma BestOnly(dir: Path, listing: Listing, kind: Kind, name: Name)
    requires IsBest(listing, kind, name)
    ensures Best(dir, listing, kind) == Some(Found(dir + [name], listing.stats[name]))
  {
    forall other | IsBest(listing, kind, other) ensures other == name {
      OneBest(listing, kind, other, name);
    }
  }

  lemma FirstIsBest(listing: Listing, kind: Kind, sorted: seq<(nat, Name)>, i: nat)
    requires SortedBy(CompareRanked, sorted) && i < |sorted| && Ranks(sorted, kind, listing)
    requires Sized(listing.stats[sorted[i].1])
    requires forall j :: 0 <= j < i ==> !Sized(listing.stats[sorted[j].1])
    ensures IsBest(listing, kind, sorted[i].1)
  {
    hide Candidate, CompareRanked;
    assert sorted[i] in sorted;
    forall other | May(listing, kind, other) ensures CompareRanked(Ranked(sorted[i].1), Ranked(other)) != Greater {
      assert Ranked(other) in sorted;
      var j :| 0 <= j < |sorted| && sorted[j] == Ranked(other);
      assert Ranked(sorted[i].1) == sorted[i];
      if j == i {
        SelfNotGreater(sorted[i]);
      }
    }
  }

  lemma SelfNotGreater(x: (nat, Name))
    ensures CompareRanked(x, x) != Greater
  {
    RankedTotal();
    assert CompareRanked(x, x) == CompareRanked(x, x).Reverse();
  }

  /** The sidecars a folder holds itself, whatever the order its names come in. */
  method PickAmong(dir: Path, listing: Listing, names: seq<Name>) returns (located: Located)
    requires forall name :: name in names <==> name in listing.stats
    ensures located == Pick(dir, listing)
  {
    hide Candidate, Best;
    var covers, artists, biographies: seq<(nat, Name)> := [], [], [];
    for i := 0 to |names|
      invariant Collects(covers, Cover, names[..i])
      invariant Collects(artists, Artist, names[..i])
      invariant Collects(biographies, Biography, names[..i])
    {
      CollectsOne(covers, Cover, names, i);
      CollectsOne(artists, Artist, names, i);
      CollectsOne(biographies, Biography, names, i);
      hide Collects;
      match Candidate(names[i]) {
        case None =>
        case Some((Cover, rank)) => covers := covers + [(rank, names[i])];
        case Some((Artist, rank)) => artists := artists + [(rank, names[i])];
        case Some((Biography, rank)) => biographies := biographies + [(rank, names[i])];
      }
    }
    assert names[..|names|] == names;
    assert Ranks(covers, Cover, listing) && Ranks(artists, Artist, listing) && Ranks(biographies, Biography, listing);
    var cover := FirstSized(dir, listing, Cover, covers);
    var artist := FirstSized(dir, listing, Artist, artists);
    var biography := FirstSized(dir, listing, Biography, biographies);
    located := Located(cover, artist, biography);
  }

  // ---- Lyrics ----

  /** The lyrics files of a folder's listing, by name folded to lower case. */
  datatype LyricsNames = LyricsNames(dir: Path, folded: map<Name, Name>)

  /** Each folded name of a lyrics file gives the first name listed that folds to it. */
  ghost predicate Folds(folded: map<Name, Name>, names: seq<Name>) {
    forall lower {:trigger lower in folded} :: Extension(lower).Some? && Extension(lower).value in LYRICS_EXTENSIONS ==>
      FirstFolded(names, lower, 0) == if lower in folded then Some(folded[lower]) else None
  }

  method LyricsOf(dir: Path, listing: Listing) returns (lyrics: LyricsNames)
    ensures lyrics.dir == dir && Folds(lyrics.folded, listing.names)
  {
    var folded: map<Name, Name> := map[];
    for i := 0 to |listing.names|
      invariant Folds(folded, listing.names[..i])
    {
      var name := listing.names[i];
      FoldsOne(folded, listing.names, i);
      var lower := Lower(name);
      if Extension(lower).Some? && Extension(lower).value in LYRICS_EXTENSIONS && lower !in folded {
        folded := folded[lower := name];
      }
    }
    assert listing.names[..|listing.names|] == listing.names;
    lyrics := LyricsNames(dir, folded);
  }

  lemma FoldsOne(folded: map<Name, Name>, names: seq<Name>, i: nat)
    requires i < |names| && Folds(folded, names[..i])
    ensures var lower := Lower(names[i]);
      Folds(if Extension(lower).Some? && Extension(lower).value in LYRICS_EXTENSIONS && lower !in folded
            then folded[lower := names[i]] else folded, names[..i + 1])
  {
    hide Lower, Extension, FirstFolded;
    forall lower ensures FirstFolded(names[..i + 1], lower, 0) ==
      if FirstFolded(names[..i], lower, 0).Some? then FirstFolded(names[..i], lower, 0)
      else if Lower(names[i]) == lower then Some(names[i]) else None
    {
      FirstFoldedNext(names, lower, i, 0);
    }
  }

  lemma {:induction false} FirstFoldedNext(names: seq<Name>, lower: Name, i: nat, j: nat)
    requires j <= i < |names|
    ensures FirstFolded(names[..i + 1], lower, j) ==
      if FirstFolded(names[..i], lower, j).Some? then FirstFolded(names[..i], lower, j)
      else if Lower(names[i]) == lower then Some(names[i]) else None
    decreases i - j
  {
    if j < i {
      FirstFoldedNext(names, lower, i, j + 1);
    }
  }

  /** A lyrics file's name, folded, has its extension. */
  lemma LyricsExtension(stem: Name, ext: Name)
    requires stem != [] && ext in LYRICS_EXTENSIONS
    ensures Extension(Lower(stem + [DOT] + ext)) == Some(ext)
  {
    assert Ascii("lrc") == [108, 114, 99] && Ascii("txt") == [116, 120, 116];
    assert Lower(stem + [DOT] + ext) == Lower(stem) + [DOT] + ext;
    LastDotAt(Lower(stem), ext);
  }

  /** The lyrics file of a track, found by the names folded. */
  method FindLyrics(dir: Path, audio: Name, listing: Listing, lyrics: LyricsNames) returns (found: Option<Found>)
    requires ValidListing(listing) && audio != [] && Folds(lyrics.folded, listing.names)
    ensures found == LyricsFor(dir, audio, listing)
  {
    var stem := FileStem(audio);
    assert stem != [];
    hide Folds, Lower, Extension, FileStem;
    for i := 0 to |LYRICS_EXTENSIONS|
      invariant LyricsFor(dir, audio, listing) == LyricsFrom(dir, audio, listing, i)
    {
      var name := stem + [DOT] + LYRICS_EXTENSIONS[i];
      var listed: Option<Name> := None;
      if name in listing.stats {
        listed := Some(name);
      } else if Lower(name) in lyrics.folded {
        listed := Some(lyrics.folded[Lower(name)]);
      }
      FoldedListed(listing, lyrics.folded, stem, LYRICS_EXTENSIONS[i]);
      if listed.Some? {
        FirstFoldedIn(listing.names, Lower(name), 0);
        var stat := listing.stats[listed.value];
        return if Sized(stat) then Some(Found(dir + [listed.value], stat)) else None;
      }
    }
    found := None;
  }

  lemma FoldedListed(listing: Listing, folded: map<Name, Name>, stem: Name, ext: Name)
    requires stem != [] && ext in LYRICS_EXTENSIONS && Folds(folded, listing.names)
    ensures var name := stem + [DOT] + ext;
      Listed(listing, name) == if name in listing.stats then Some(name)
        else if Lower(name) in folded then Some(folded[Lower(name)]) else None
  {
    LyricsExtension(stem, ext);
    hide Lower, Extension, FirstFolded;
  }

  // ---- The resolver ----

  /** What a folder's sidecars say, read. */
  datatype Resolved = Resolved(cover: Option<Contents>, artist: Option<Contents>, biography: Option<Contents>)

  /** What applies to a folder, and the bytes its digest is of. */
  datatype Applied = Applied(located: Located, digest: Name)

  function ReadAt(read: Reader, found: Option<Found>): Option<Contents> {
    if found.Some? then read(found.value.path) else None
  }

  /** A folder's own sidecars, and for the kinds it has none of, those of its parent. */
  lemma AppliesOver(disk: Disk, root: Path, dir: Path)
    ensures Own(disk, dir).Complete() || !(root < dir) ==> Applies(disk, root, dir) == Own(disk, dir)
    ensures root < dir ==>
      var (own, inherited) := (Own(disk, dir), Applies(disk, root, Parent(dir)));
      Applies(disk, root, dir) ==
        Located(Or(own.cover, inherited.cover), Or(own.artist, inherited.artist), Or(own.biography, inherited.biography))
  {
    hide Own;
  }

  /** The resolver of a scan of `root`, over a disk that does not change under it. */
  class SidecarResolver {
    const root: Path
    const disk: Disk
    const readImage: Reader
    const readText: Reader
    var local: map<Path, Located>
    var applied: map<Path, Applied>
    var lyricsNames: Option<LyricsNames>
    var images: map<Path, Option<Contents>>
    var biographies: map<Path, Option<Contents>>
    /** The folders it listed itself, and the files it opened, in turn. */
    ghost var listed: seq<Path>
    ghost var imagesRead: seq<Path>
    ghost var textsRead: seq<Path>

    /** What is kept agrees with the disk, and nothing was listed or opened twice; `pending` are the folders it
        is locating. */
    ghost predicate Keeps(pending: set<Path>)
      reads this
    {
      ValidDisk(disk) && LocalKept() && AppliedKept() && LyricsKept() && ListedOnce(pending) && ImagesKept() && TextsKept()
    }

    ghost predicate LocalKept()
      reads this`local
    {
      forall dir :: dir in local ==> local[dir] == Own(disk, dir)
    }

    ghost predicate AppliedKept()
      reads this`applied
    {
      forall dir :: dir in applied ==>
        applied[dir].located == Applies(disk, root, dir) && applied[dir].digest == FeedAll(applied[dir].located)
    }

    ghost predicate LyricsKept()
      reads this`lyricsNames
    {
      lyricsNames.Some? ==>
        disk(lyricsNames.value.dir).Some? && Folds(lyricsNames.value.folded, disk(lyricsNames.value.dir).value.names)
    }

    ghost predicate ListedOnce(pending: set<Path>)
      reads this`listed, this`applied
    {
      Distinct(listed) && forall dir :: dir in listed ==> dir in applied || dir in pending
    }

    ghost predicate ImagesKept()
      reads this`images, this`imagesRead
    {
      && Distinct(imagesRead) && (forall path :: path in imagesRead <==> path in images)
      && forall path :: path in images ==> images[path] == readImage(path)
    }

    ghost predicate TextsKept()
      reads this`biographies, this`textsRead
    {
      && Distinct(textsRead) && (forall path :: path in textsRead <==> path in biographies)
      && forall path :: path in biographies ==> biographies[path] == readText(path)
    }

    ghost predicate Valid()
      reads this
    {
      Keeps({})
    }

    constructor (root: Path, disk: Disk, readImage: Reader, readText: Reader)
      requires ValidDisk(disk)
      ensures Valid() && this.root == root && this.disk == disk && this.readImage == readImage && this.readText == readText
    {
      this.root, this.disk, this.readImage, this.readText := root, disk, readImage, readText;
      local, applied, lyricsNames, images, biographies := map[], map[], None, map[], map[];
      listed, imagesRead, textsRead := [], [], [];
    }

    /** Takes a listing discovery made, one that agrees with the disk. */
    method OfferListing(dir: Path, files: Listing)
      requires Valid() && Offers(disk, dir, files)
      modifies this`local
      ensures Valid() && dir in local
    {
      hide Applies;
      assert forall name :: name in files.names <==> name in files.stats;
      OffersOwn(disk, dir, files);
      hide Pick, Own;
      if dir !in local {
        var own := PickAmong(dir, files, files.names);
        local := local[dir := own];
      }
    }

    /** A folder as the system lists it, its names in any order. */
    method ReadDir(dir: Path) returns (listing: Option<Listing>, names: seq<Name>)
      requires ValidDisk(disk)
      modifies this`listed
      ensures listing == disk(dir) && listed == old(listed) + [dir]
      ensures listing.Some? ==> forall name :: name in names <==> name in listing.value.stats
    {
      listing := disk(dir);
      names := if listing.Some? then listing.value.names else [];
      listed := listed + [dir];
    }

    /** The folder's own sidecars, from the listing offered or from its own. */
    method LocalFor(dir: Path, ghost pending: set<Path>) returns (own: Located)
      requires Keeps(pending) && dir !in applied && dir !in pending
      modifies this`local, this`listed
      ensures Keeps(pending + {dir}) && own == Own(disk, dir)
    {
      hide Pick, Applies, FeedAll, AppliedKept, LyricsKept, ImagesKept, TextsKept;
      if dir in local {
        own := local[dir];
        local := local - {dir};
        return;
      }
      var (listing, names) := (None, []);
      listing, names := ReadDir(dir);
      own := NOTHING;
      if listing.Some? {
        own := PickAmong(dir, listing.value, names);
      }
    }

    /** Gives what `Applies` is, from the memo if it is there, which it is after. */
    method Locate(dir: Path, ghost pending: set<Path>) returns (a: Applied)
      requires Keeps(pending) && forall p :: p in pending ==> |p| > |dir|
      modifies this`local, this`applied, this`listed
      ensures Keeps(pending) && a.located == Applies(disk, root, dir) && a.digest == FeedAll(a.located)
      ensures dir in applied && applied[dir] == a
      decreases |dir|, 1
    {
      if dir !in applied {
        LocateNew(dir, pending);
      }
      a := applied[dir];
    }

    /** Locates a folder not yet located. */
    method LocateNew(dir: Path, ghost pending: set<Path>)
      requires Keeps(pending) && dir !in applied && forall p :: p in pending ==> |p| > |dir|
      modifies this`local, this`applied, this`listed
      ensures Keeps(pending) && dir in applied
      decreases |dir|, 0
    {
      hide Own, Applies, Keeps;
      var located := LocalFor(dir, pending);
      AppliesOver(disk, root, dir);
      if !located.Complete() && root < dir {
        var parent := Locate(Parent(dir), pending + {dir});
        located := Located(Or(located.cover, parent.located.cover), Or(located.artist, parent.located.artist),
                           Or(located.biography, parent.located.biography));
      }
      Settle(dir, located, pending);
    }

    /** Keeps what applies to `dir`. */
    method Settle(dir: Path, located: Located, ghost pending: set<Path>)
      requires Keeps(pending + {dir}) && located == Applies(disk, root, dir)
      modifies this`applied
      ensures Keeps(pending) && dir in applied
    {
      hide Applies, FeedAll, Distinct, LocalKept, LyricsKept, ImagesKept, TextsKept;
      applied := applied[dir := Applied(located, FeedAll(located))];
    }

    /** What `readImage` gives: a file is opened only if no image of it is kept. */
    method Image(path: Path) returns (image: Option<Contents>)
      requires Valid()
      modifies this`images, this`imagesRead
      ensures Valid() && image == readImage(path)
    {
      hide LocalKept, AppliedKept, LyricsKept, ListedOnce, TextsKept;
      if path !in images {
        imagesRead := imagesRead + [path];
        images := images[path := readImage(path)];
      }
      image := images[path];
    }

    method Text(path: Path) returns (text: Option<Contents>)
      requires Valid()
      modifies this`biographies, this`textsRead
      ensures Valid() && text == readText(path)
    {
      hide LocalKept, AppliedKept, LyricsKept, ListedOnce, ImagesKept;
      if path !in biographies {
        textsRead := textsRead + [path];
        biographies := biographies[path := readText(path)];
      }
      text := biographies[path];
    }

    /** Reads what `Applies` gives of each kind, opening no file again. */
    method Resolve(dir: Path) returns (r: Resolved)
      requires Valid()
      modifies this
      ensures Valid()
      ensures var located := Applies(disk, root, dir);
        r == Resolved(ReadAt(readImage, located.cover), ReadAt(readImage, located.artist), ReadAt(readText, located.biography))
    {
      var a := Locate(dir, {});
      hide Keeps;
      r := Resolved(None, None, None);
      if a.located.cover.Some? {
        var image := Image(a.located.cover.value.path);
        r := r.(cover := image);
      }
      if a.located.artist.Some? {
        var image := Image(a.located.artist.value.path);
        r := r.(artist := image);
      }
      if a.located.biography.Some? {
        var text := Text(a.located.biography.value.path);
        r := r.(biography := text);
      }
    }

    /** Gives the stamp of what applies and of the lyrics found, and changes neither what is read nor kept of it. */
    method StampTrack(dir: Path, audio: Name, files: Listing) returns (stamp: Stamp, lyrics: Option<Found>)
      requires Valid() && disk(dir) == Some(files) && audio != []
      modifies this`local, this`applied, this`listed, this`lyricsNames
      ensures Valid() && lyrics == LyricsFor(dir, audio, files) && stamp == StampOf(Applies(disk, root, dir), lyrics)
    {
      hide Own, Applies, Folds, LyricsFor, FeedAll, Feed, LocalKept, AppliedKept, ListedOnce, ImagesKept, TextsKept;
      if !(lyricsNames.Some? && lyricsNames.value.dir == dir) {
        var names := LyricsOf(dir, files);
        lyricsNames := Some(names);
      }
      lyrics := FindLyrics(dir, audio, files, lyricsNames.value);
      var a := Locate(dir, {});
      stamp := if lyrics.None? then OfSidecars(a.digest) else WithLyrics(a.digest, Feed(lyrics.value));
    }
  }
}

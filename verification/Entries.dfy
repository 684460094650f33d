/** A folder's entries, a page at a time, for plugins
    (crates/plugins/src/files.rs:34-35, :67-109). */
module Entries {
  import opened Wrappers
  import opened Orders
  import opened Sorting
  import opened Paths

  /** How long an answer is at most. */
  const PAGE: nat := 500

  /** Whether a name's bytes from the `i`th are UTF-8. */
  predicate Utf8(name: Name, i: nat)
    requires i <= |name|
    decreases |name| - i
  {
    if i == |name| then true
    else if name[i] < 0x80 then Utf8(name, i + 1)
    else if 0xC2 <= name[i] < 0xE0 then Continues(name, i, 1, 0x80, 0xC0) && Utf8(name, i + 2)
    else if 0xE0 <= name[i] < 0xF0 then
      Continues(name, i, 2, if name[i] == 0xE0 then 0xA0 else 0x80, if name[i] == 0xED then 0xA0 else 0xC0) && Utf8(name, i + 3)
    else if 0xF0 <= name[i] < 0xF5 then
      Continues(name, i, 3, if name[i] == 0xF0 then 0x90 else 0x80, if name[i] == 0xF4 then 0x90 else 0xC0) && Utf8(name, i + 4)
    else false
  }

  /** Whether `n` continuation bytes follow, the first of them from `low` up to `high`. */
  predicate Continues(name: Name, i: nat, n: nat, low: nat, high: nat)
    requires n > 0
  {
    && i + n < |name| && low <= name[i + 1] < high
    && forall j :: i + 2 <= j <= i + n ==> 0x80 <= name[j] < 0xC0
  }

  /** Whether a call that starts after `after` answers the name. */
  predicate Wanted(name: Name, after: Option<Name>) {
    Utf8(name, 0) && (after.Some? ==> CompareNames(name, after.value) == Greater)
  }

  function Wants(names: seq<Name>, after: Option<Name>): seq<Name> {
    if names == [] then []
    else Wants(names[..|names| - 1], after) + if Wanted(names[|names| - 1], after) then [names[|names| - 1]] else []
  }

  function First(names: seq<Name>, n: nat): seq<Name> {
    if |names| <= n then names else names[..n]
  }

  /** The first names after `after`, in order, of a folder that lists `names`. */
  function PageOf(names: seq<Name>, after: Option<Name>): seq<Name> {
    First(Sort(CompareNames, Wants(names, after)), PAGE)
  }

  // ---- One call ----

  /** What describing a name gives: it may be gone since, or not be described. */
  datatype Meta = Is(directory: bool, size: nat, modifiedMs: nat) | Gone | Fails

  datatype Entry = Entry(name: Name, meta: Meta)

  function Described(page: seq<Name>, describe: Name -> Meta): seq<Entry> {
    if page == [] then []
    else
      var name := page[|page| - 1];
      Described(page[..|page| - 1], describe) + if describe(name).Gone? then [] else [Entry(name, describe(name))]
  }

  /** The least names of a folder read in any order, with no more than a page and one held at once. */
  method ReadPage(names: seq<Name>, after: Option<Name>) returns (page: seq<Name>)
    ensures page == PageOf(names, after)
  {
    hide Wanted, Sort;
    page := [];
    FirstOfNone();
    for i := 0 to |names|
      invariant |page| <= PAGE && page == PageOf(names[..i], after)
    {
      var name := names[i];
      assert names[..i + 1][..i] == names[..i] && names[..i + 1][i] == name;
      assert Wants(names[..i + 1], after) == if Wanted(name, after) then Wants(names[..i], after) + [name] else Wants(names[..i], after);
      if Wanted(name, after) {
        PageWithOne(Wants(names[..i], after), name, PAGE);
        // The heap's greatest name is the last in order.
        page := Insert(CompareNames, name, page);
        if |page| > PAGE {
          page := page[..|page| - 1];
        }
      }
    }
    assert names[..|names|] == names;
  }

  /** The first page of the names after `after`, each described, leaving out what is gone. */
  method ListEntries(names: seq<Name>, after: Option<Name>, describe: Name -> Meta) returns (r: Result<seq<Entry>, Name>)
    ensures r.Ok? ==> r.value == Described(PageOf(names, after), describe)
    ensures r.Ok? <==> forall i :: 0 <= i < |PageOf(names, after)| ==> !describe(PageOf(names, after)[i]).Fails?
    ensures r.Err? ==> r.error in PageOf(names, after) && describe(r.error).Fails?
  {
    hide PageOf;
    var page := ReadPage(names, after);
    var described: seq<Entry> := [];
    for i := 0 to |page|
      invariant described == Described(page[..i], describe)
      invariant forall j :: 0 <= j < i ==> !describe(page[j]).Fails?
    {
      assert page[..i + 1][..i] == page[..i];
      var meta := describe(page[i]);
      if meta.Fails? {
        return Err(page[i]);
      }
      if !meta.Gone? {
        described := described + [Entry(page[i], meta)];
      }
    }
    assert page[..|page|] == page;
    r := Ok(described);
  }

  lemma FirstOfNone()
    ensures First(Sort(CompareNames, []), PAGE) == []
  {
  }

  /** Adding one name to the least `n`, and dropping the last of too many, gives the least `n` with it. */
  lemma PageWithOne(names: seq<Name>, name: Name, n: nat)
    ensures First(Sort(CompareNames, names + [name]), n) == First(Insert(CompareNames, name, First(Sort(CompareNames, names), n)), n)
  {
    NamesTotal();
    SortSorts(CompareNames, names);
    SortOfOneMore(names, name);
    InsertFirstOf(Sort(CompareNames, names), name, n);
  }

  lemma SortOfOneMore(names: seq<Name>, name: Name)
    ensures Sort(CompareNames, names + [name]) == Insert(CompareNames, name, Sort(CompareNames, names))
  {
    NamesTotal();
    var (a, b) := (names + [name], [name] + names);
    assert multiset(a) == multiset(b);
    SortOfPermutation(CompareNames, a, b);
    assert b[0] == name && b[1..] == names;
  }

  lemma {:induction false} InsertFirstOf(s: seq<Name>, name: Name, n: nat)
    requires SortedBy(CompareNames, s)
    ensures First(Insert(CompareNames, name, s), n) == First(Insert(CompareNames, name, First(s, n)), n)
  {
    if n > 0 && s != [] {
      var rest := s[1..];
      assert s == [s[0]] + rest;
      FirstNext(s[0], rest, n);
      FirstNext(name, s, n);
      if CompareNames(name, s[0]) == Greater {
        InsertFirstOf(rest, name, n - 1);
        FirstNext(s[0], Insert(CompareNames, name, rest), n);
        FirstNext(s[0], Insert(CompareNames, name, First(rest, n - 1)), n);
      } else {
        FirstNext(name, First(s, n), n);
      }
    }
  }

  lemma FirstNext(name: Name, s: seq<Name>, n: nat)
    requires n > 0
    ensures First([name] + s, n) == [name] + First(s, n - 1)
  {
  }

  // ---- Every page ----

  /** Each read of the folder lists the same names, each once, in whatever order. */
  ghost predicate SameFolder(lists: nat -> seq<Name>) {
    (forall name :: multiset(lists(0))[name] <= 1) && forall i :: multiset(lists(i)) == multiset(lists(0))
  }

  /** All the pages from the one after `after` on, with the last name of each the next is asked for, until one is
      empty; `i` lists of the folder were made before. */
  ghost function Pages(lists: nat -> seq<Name>, i: nat, after: Option<Name>): seq<Name>
    requires SameFolder(lists)
    decreases |Wants(lists(0), after)|
  {
    var page := PageOf(lists(i), after);
    if page == [] then []
    else
      FewerAfter(lists, i, after);
      page + Pages(lists, i + 1, Some(page[|page| - 1]))
  }

  /** The bag is of the names wanted. */
  ghost predicate Counts(bag: multiset<Name>, names: seq<Name>, after: Option<Name>) {
    forall name: Name :: bag[name] == if Wanted(name, after) then multiset(names)[name] else 0
  }

  lemma SameCounts(a: multiset<Name>, b: multiset<Name>, names: seq<Name>, after: Option<Name>)
    requires Counts(a, names, after) && Counts(b, names, after)
    ensures a == b
  {
    hide Wanted;
  }

  lemma {:induction false} WantsCounts(names: seq<Name>, after: Option<Name>)
    ensures Counts(multiset(Wants(names, after)), names, after)
  {
    hide Wanted;
    if names != [] {
      WantsCounts(names[..|names| - 1], after);
      assert names == names[..|names| - 1] + [names[|names| - 1]];
    }
  }

  lemma WantsAnyOrder(a: seq<Name>, b: seq<Name>, after: Option<Name>)
    requires multiset(a) == multiset(b)
    ensures multiset(Wants(a, after)) == multiset(Wants(b, after))
  {
    hide Wants, Wanted;
    WantsCounts(a, after);
    WantsCounts(b, after);
    SameCounts(multiset(Wants(a, after)), multiset(Wants(b, after)), a, after);
  }

  lemma PageAnyOrder(a: seq<Name>, b: seq<Name>, after: Option<Name>)
    requires multiset(a) == multiset(b)
    ensures Sort(CompareNames, Wants(a, after)) == Sort(CompareNames, Wants(b, after))
  {
    NamesTotal();
    WantsAnyOrder(a, b, after);
    SortOfPermutation(CompareNames, Wants(a, after), Wants(b, after));
  }

  /** The names wanted after the last of a page are the rest, in order. */
  lemma RestAfter(names: seq<Name>, after: Option<Name>, k: nat)
    requires forall name :: multiset(names)[name] <= 1
    requires 0 < k <= |Sort(CompareNames, Wants(names, after))|
    ensures var sorted := Sort(CompareNames, Wants(names, after));
      Sort(CompareNames, Wants(names, Some(sorted[k - 1]))) == sorted[k..]
  {
    NamesTotal();
    var sorted := Sort(CompareNames, Wants(names, after));
    SortSorts(CompareNames, Wants(names, after));
    var more := Wants(names, Some(sorted[k - 1]));
    SortSorts(CompareNames, more);
    SameRest(names, after, sorted, k);
    hide Sort, CompareNames;
    assert SortedBy(CompareNames, sorted[k..]);
    SortedUnique(CompareNames, Sort(CompareNames, more), sorted[k..]);
  }

  lemma SameRest(names: seq<Name>, after: Option<Name>, sorted: seq<Name>, k: nat)
    requires forall name :: multiset(names)[name] <= 1
    requires multiset(sorted) == multiset(Wants(names, after)) && SortedBy(CompareNames, sorted) && 0 < k <= |sorted|
    ensures multiset(Wants(names, Some(sorted[k - 1]))) == multiset(sorted[k..])
  {
    hide Wants, Wanted, SortedBy, CompareNames, Counts;
    var last := sorted[k - 1];
    WantsCounts(names, after);
    WantsCounts(names, Some(last));
    assert sorted == sorted[..k] + sorted[k..];
    RestCounts(names, after, sorted, k);
    SameCounts(multiset(Wants(names, Some(last))), multiset(sorted[k..]), names, Some(last));
  }

  lemma RestCounts(names: seq<Name>, after: Option<Name>, sorted: seq<Name>, k: nat)
    requires forall name :: multiset(names)[name] <= 1
    requires SortedBy(CompareNames, sorted) && 0 < k <= |sorted| && multiset(sorted) == multiset(sorted[..k]) + multiset(sorted[k..])
    requires Counts(multiset(sorted), names, after)
    ensures Counts(multiset(sorted[k..]), names, Some(sorted[k - 1]))
  {
    hide Wanted, SortedBy, CompareNames;
    forall name: Name
      ensures multiset(sorted[k..])[name] == if Wanted(name, Some(sorted[k - 1])) then multiset(names)[name] else 0
    {
      CountAfter(names, after, sorted, k, name);
    }
  }

  lemma CountAfter(names: seq<Name>, after: Option<Name>, sorted: seq<Name>, k: nat, name: Name)
    requires multiset(names)[name] <= 1
    requires SortedBy(CompareNames, sorted) && 0 < k <= |sorted| && multiset(sorted) == multiset(sorted[..k]) + multiset(sorted[k..])
    requires Counts(multiset(sorted), names, after)
    ensures multiset(sorted[k..])[name] == if Wanted(name, Some(sorted[k - 1])) then multiset(names)[name] else 0
  {
    hide CompareNames, Utf8;
    if name in sorted[k..] {
      IsAfter(names, after, sorted, k, name);
    } else if Wanted(name, Some(sorted[k - 1])) {
      NotBefore(names, after, sorted, k, name);
    }
  }

  lemma IsAfter(names: seq<Name>, after: Option<Name>, sorted: seq<Name>, k: nat, name: Name)
    requires 0 < k <= |sorted| && multiset(names)[name] <= 1 && name in sorted[k..]
    requires SortedBy(CompareNames, sorted) && 0 < k <= |sorted| && multiset(sorted) == multiset(sorted[..k]) + multiset(sorted[k..])
    requires Counts(multiset(sorted), names, after)
    ensures Wanted(name, Some(sorted[k - 1])) && multiset(sorted[k..])[name] == multiset(names)[name]
  {
    NamesTotal();
    hide CompareNames, Utf8;
    var last := sorted[k - 1];
    var j :| 0 <= j < |sorted[k..]| && sorted[k..][j] == name;
    assert sorted[k + j] == name;
    assert CompareNames(last, name) == CompareNames(name, last).Reverse();
    assert sorted[..k][k - 1] == last;
    assert last in multiset(sorted[..k]);
    assert multiset(sorted[k..])[name] >= 1;
    assert multiset(sorted)[name] >= 1;
    assert last != name;
  }

  lemma NotBefore(names: seq<Name>, after: Option<Name>, sorted: seq<Name>, k: nat, name: Name)
    requires 0 < k <= |sorted| && name !in sorted[k..]
    requires SortedBy(CompareNames, sorted) && 0 < k <= |sorted| && multiset(sorted) == multiset(sorted[..k]) + multiset(sorted[k..])
    requires Counts(multiset(sorted), names, after)
    requires Wanted(name, Some(sorted[k - 1]))
    ensures multiset(names)[name] == 0
  {
    NamesTotal();
    hide CompareNames, Utf8;
    var last := sorted[k - 1];
    assert sorted[..k][k - 1] == last;
    assert last in multiset(sorted[..k]);
    assert Wanted(last, after);
    WantedFurther(name, last, after);
    if i :| 0 <= i < k && sorted[..k][i] == name {
      BeforeLast(sorted, k, i);
    }
    assert name !in sorted[..k];
    assert multiset(sorted)[name] == 0;
  }

  lemma WantedFurther(name: Name, last: Name, after: Option<Name>)
    requires Wanted(last, after) && Wanted(name, Some(last))
    ensures Wanted(name, after)
  {
    NamesTotal();
    hide CompareNames, Utf8;
    if after.Some? {
      StrictTransitive(CompareNames, after.value, last, name);
      assert CompareNames(after.value, last) == CompareNames(last, after.value).Reverse();
      assert CompareNames(last, name) == CompareNames(name, last).Reverse();
      assert CompareNames(after.value, name) == CompareNames(name, after.value).Reverse();
    }
  }

  lemma BeforeLast(sorted: seq<Name>, k: nat, i: nat)
    requires SortedBy(CompareNames, sorted) && i < k <= |sorted|
    ensures CompareNames(sorted[i], sorted[k - 1]) != Greater
  {
    LexSelf(sorted[i]);
  }

  /** After a page there is what came after it in order, as each read has it. */
  lemma AfterPage(lists: nat -> seq<Name>, i: nat, after: Option<Name>)
    requires SameFolder(lists)
    ensures var (page, sorted) := (PageOf(lists(i), after), Sort(CompareNames, Wants(lists(0), after)));
      && page == First(sorted, PAGE)
      && (page != [] ==> Sort(CompareNames, Wants(lists(0), Some(page[|page| - 1]))) == sorted[|page|..])
  {
    PageAnyOrder(lists(i), lists(0), after);
    var (page, sorted) := (PageOf(lists(i), after), Sort(CompareNames, Wants(lists(0), after)));
    hide Sort, Wants, CompareNames;
    if page != [] {
      RestAfter(lists(0), after, |page|);
      assert page[|page| - 1] == sorted[|page| - 1];
    }
  }

  lemma FewerAfter(lists: nat -> seq<Name>, i: nat, after: Option<Name>)
    requires SameFolder(lists) && PageOf(lists(i), after) != []
    ensures var page := PageOf(lists(i), after);
      |Wants(lists(0), Some(page[|page| - 1]))| < |Wants(lists(0), after)|
  {
    AfterPage(lists, i, after);
    hide Wants;
    var page := PageOf(lists(i), after);
    assert |Sort(CompareNames, Wants(lists(0), Some(page[|page| - 1])))| == |Wants(lists(0), Some(page[|page| - 1]))|;
  }

  /** The pages are all the names wanted, in order. */
  lemma {:induction false} PagesInOrder(lists: nat -> seq<Name>, i: nat, after: Option<Name>)
    requires SameFolder(lists)
    ensures Pages(lists, i, after) == Sort(CompareNames, Wants(lists(0), after))
    decreases |Wants(lists(0), after)|
  {
    AfterPage(lists, i, after);
    var (page, sorted) := (PageOf(lists(i), after), Sort(CompareNames, Wants(lists(0), after)));
    if page != [] {
      FewerAfter(lists, i, after);
      PagesInOrder(lists, i + 1, Some(page[|page| - 1]));
      assert Pages(lists, i, after) == page + Pages(lists, i + 1, Some(page[|page| - 1]));
    }
    hide Pages, Sort, Wants, PageOf;
    assert page == [] ==> sorted == [];
    assert page + sorted[|page|..] == sorted;
  }

  /** Paging an unchanged folder to an empty page gives every name that is UTF-8, each once. */
  lemma PagesAllOnce(lists: nat -> seq<Name>)
    requires SameFolder(lists)
    ensures forall name: Name :: multiset(Pages(lists, 0, None))[name] == if name in lists(0) && Utf8(name, 0) then 1 else 0
    ensures SortedBy(CompareNames, Pages(lists, 0, None))
  {
    NamesTotal();
    PagesInOrder(lists, 0, None);
    SortSorts(CompareNames, Wants(lists(0), None));
    WantsCounts(lists(0), None);
  }

  // ---- Every answer ----

  function NamesOf(entries: seq<Entry>): (names: seq<Name>)
    ensures |names| == |entries| && forall i :: 0 <= i < |names| ==> names[i] == entries[i].name
  {
    seq(|entries|, i requires 0 <= i < |entries| => entries[i].name)
  }

  /** An answer is of the names of its page that are not gone, each with what describing it gives; so of the whole
      page exactly if none is. */
  lemma {:induction false} DescribedNames(page: seq<Name>, describe: Name -> Meta)
    ensures forall e :: e in Described(page, describe) ==> e.name in page && e.meta == describe(e.name)
    ensures |Described(page, describe)| <= |page|
    ensures NamesOf(Described(page, describe)) == page <==> forall name :: name in page ==> !describe(name).Gone?
  {
    if page != [] {
      var (front, name) := (page[..|page| - 1], page[|page| - 1]);
      DescribedNames(front, describe);
      assert page == front + [name];
      var before := Described(front, describe);
      if !describe(name).Gone? {
        assert Described(page, describe) == before + [Entry(name, describe(name))];
        assert NamesOf(Described(page, describe)) == NamesOf(before) + [name];
        if NamesOf(before) + [name] == page {
          assert NamesOf(before) == page[..|page| - 1];
        }
      } else {
        assert |NamesOf(Described(page, describe))| < |page|;
      }
    }
  }

  /** No name of the folder is gone, or cannot be described. */
  ghost predicate Stays(lists: nat -> seq<Name>, describe: Name -> Meta) {
    forall name :: name in lists(0) ==> describe(name).Is?
  }

  lemma {:induction false} WantsOnly(names: seq<Name>, after: Option<Name>)
    ensures forall name :: name in Wants(names, after) ==> name in names
  {
    hide Wanted;
    if names != [] {
      WantsOnly(names[..|names| - 1], after);
    }
  }

  lemma PageOnly(lists: nat -> seq<Name>, i: nat, after: Option<Name>)
    requires SameFolder(lists)
    ensures forall name :: name in PageOf(lists(i), after) ==> name in lists(0)
  {
    NamesTotal();
    var wants := Wants(lists(i), after);
    SortSorts(CompareNames, wants);
    WantsOnly(lists(i), after);
    hide Sort, Wants, CompareNames;
    forall name | name in PageOf(lists(i), after) ensures name in lists(0) {
      assert name in Sort(CompareNames, wants);
      assert name in multiset(Sort(CompareNames, wants));
      assert name in wants;
      assert multiset(lists(i)) == multiset(lists(0)) && name in multiset(lists(i));
    }
  }

  /** Then a call answers its page whole, and does not fail. */
  lemma AnswersPage(lists: nat -> seq<Name>, i: nat, after: Option<Name>, describe: Name -> Meta)
    requires SameFolder(lists) && Stays(lists, describe)
    ensures var page := PageOf(lists(i), after);
      && NamesOf(Described(page, describe)) == page
      && (forall e :: e in Described(page, describe) ==> e.name in lists(0) && e.meta == describe(e.name))
      && forall k :: 0 <= k < |page| ==> !describe(page[k]).Fails?
  {
    PageOnly(lists, i, after);
    var page := PageOf(lists(i), after);
    hide PageOf;
    DescribedNames(page, describe);
    assert forall k :: 0 <= k < |page| ==> page[k] in page;
  }

  /** What calls answer from the one after `after` on, each asked for what follows the last name answered, until one
      answers nothing; `i` were made before. */
  ghost function Answers(lists: nat -> seq<Name>, i: nat, after: Option<Name>, describe: Name -> Meta): seq<Entry>
    requires SameFolder(lists) && Stays(lists, describe)
    decreases |Wants(lists(0), after)|
  {
    var answer := Described(PageOf(lists(i), after), describe);
    if answer == [] then []
    else
      AnswersPage(lists, i, after, describe);
      FewerAfter(lists, i, after);
      answer + Answers(lists, i + 1, Some(answer[|answer| - 1].name), describe)
  }

  /** The calls' own answers page the folder. */
  lemma {:induction false} AnswersArePages(lists: nat -> seq<Name>, i: nat, after: Option<Name>, describe: Name -> Meta)
    requires SameFolder(lists) && Stays(lists, describe)
    ensures NamesOf(Answers(lists, i, after, describe)) == Pages(lists, i, after)
    ensures forall e :: e in Answers(lists, i, after, describe) ==> e.meta == describe(e.name)
    decreases |Wants(lists(0), after)|
  {
    AnswersPage(lists, i, after, describe);
    var page := PageOf(lists(i), after);
    var answer := Described(page, describe);
    hide PageOf, Wants, Described, SameFolder, Stays;
    if answer == [] {
      assert NamesOf([]) == [];
    } else {
      FewerAfter(lists, i, after);
      var last := answer[|answer| - 1].name;
      assert last == page[|page| - 1];
      AnswersArePages(lists, i + 1, Some(last), describe);
      var rest := Answers(lists, i + 1, Some(last), describe);
      assert Answers(lists, i, after, describe) == answer + rest;
      assert Pages(lists, i, after) == page + Pages(lists, i + 1, Some(last));
      hide Answers, Pages;
      NamesOfBoth(answer, rest);
    }
  }

  lemma NamesOfBoth(a: seq<Entry>, b: seq<Entry>)
    ensures NamesOf(a + b) == NamesOf(a) + NamesOf(b)
  {
  }

  /** Asking from the start to an empty answer gives each name of an unchanged folder that is UTF-8 once, in order,
      as it is described. */
  lemma AnswersAllOnce(lists: nat -> seq<Name>, describe: Name -> Meta)
    requires SameFolder(lists) && Stays(lists, describe)
    ensures var entries := Answers(lists, 0, None, describe);
      && (forall name: Name :: multiset(NamesOf(entries))[name] == if name in lists(0) && Utf8(name, 0) then 1 else 0)
      && SortedBy(CompareNames, NamesOf(entries))
      && forall e :: e in entries ==> e.meta == describe(e.name)
  {
    AnswersArePages(lists, 0, None, describe);
    PagesAllOnce(lists);
  }
}

/** Plays sent to ListenBrainz, a refused batch in halves (plugins/listenbrainz/src/listens.rs:27-97, lib.rs:71-87). */
module Listens {
  import opened Wrappers

  const MAX_PER_SUBMISSION: nat := 1000
  const U64_MAX: nat := 0xFFFF_FFFF_FFFF_FFFF

  datatype Listen = Listen(title: string, artists: seq<string>, durationMs: nat, startedAt: nat)

  /** What the service answers a batch: it takes it, refuses it, or fails in some other way. */
  datatype Status = Accepted | Refused | Failed

  datatype Post = Post(batch: seq<Listen>, status: Status)

  // ---- The service ----

  /** The listens of a batch the service takes, and how many it refuses. */
  function Good(refuses: Listen -> bool, batch: seq<Listen>): seq<Listen> {
    if batch == [] then []
    else (if refuses(batch[0]) then [] else [batch[0]]) + Good(refuses, batch[1..])
  }

  function Bad(refuses: Listen -> bool, batch: seq<Listen>): nat {
    if batch == [] then 0
    else (if refuses(batch[0]) then 1 else 0) + Bad(refuses, batch[1..])
  }

  /** ListenBrainz, which refuses a batch exactly when it refuses a listen of it, whenever it answers. */
  class Service {
    const refuses: Listen -> bool
    var log: seq<Post>

    method Submit(batch: seq<Listen>) returns (status: Status)
      modifies this
      ensures log == old(log) + [Post(batch, status)]
      ensures status == Failed || status == Answer(refuses, batch)
    {
      status := Failed;
      var answers: bool := *;
      if answers {
        status := Answer(refuses, batch);
      }
      log := log + [Post(batch, status)];
    }
  }

  function Answer(refuses: Listen -> bool, batch: seq<Listen>): Status {
    if Bad(refuses, batch) > 0 then Refused else Accepted
  }

  // ---- Sending ----

  /** The posts that send a batch, if the service answers them all. */
  function Posts(refuses: Listen -> bool, batch: seq<Listen>): seq<Post>
    decreases |batch|
  {
    [Post(batch, Answer(refuses, batch))] +
      if Answer(refuses, batch) == Refused && |batch| > 1
      then Posts(refuses, batch[..|batch| / 2]) + Posts(refuses, batch[|batch| / 2..])
      else []
  }

  /** Those that send all from the `i`th on, in batches. */
  function AllPosts(refuses: Listen -> bool, listens: seq<Listen>, i: nat): seq<Post>
    requires i <= |listens|
    decreases |listens| - i
  {
    if i == |listens| then []
    else
      var end := ChunkEnd(listens, i);
      Posts(refuses, listens[i..end]) + AllPosts(refuses, listens, end)
  }

  function ChunkEnd(listens: seq<Listen>, i: nat): (end: nat)
    requires i <= |listens|
    ensures i <= end <= |listens| && (i < |listens| ==> i < end)
  {
    if i + MAX_PER_SUBMISSION < |listens| then i + MAX_PER_SUBMISSION else |listens|
  }

  /** The posts are the first of those expected, and the last of them failed. */
  ghost predicate CutShort(posts: seq<Post>, expected: seq<Post>) {
    && 0 < |posts| <= |expected|
    && posts[..|posts| - 1] == expected[..|posts| - 1]
    && posts[|posts| - 1] == Post(expected[|posts| - 1].batch, Failed)
  }

  lemma CutShortAfter(front: seq<Post>, posts: seq<Post>, expected: seq<Post>)
    requires CutShort(posts, expected)
    ensures CutShort(front + posts, front + expected)
  {
    var k := |posts| - 1;
    assert (front + posts)[..|front| + k] == front + posts[..k];
    assert (front + expected)[..|front| + k] == front + expected[..k];
  }

  lemma CutShortBefore(posts: seq<Post>, expected: seq<Post>, back: seq<Post>)
    requires CutShort(posts, expected)
    ensures CutShort(posts, expected + back)
  {
    assert (expected + back)[..|posts| - 1] == expected[..|posts| - 1];
  }

  /** The new posts, which add to the log, are those expected, or the service failed on the last of them. */
  ghost predicate Sent(was: seq<Post>, log: seq<Post>, expected: seq<Post>, failed: bool) {
    was <= log && if failed then CutShort(log[|was|..], expected) else log == was + expected
  }

  lemma SentBoth(a: seq<Post>, b: seq<Post>, c: seq<Post>, first: seq<Post>, second: seq<Post>, failed: bool)
    requires Sent(a, b, first, false) && Sent(b, c, second, failed)
    ensures Sent(a, c, first + second, failed)
  {
    if failed {
      assert c[|a|..] == first + c[|b|..];
      CutShortAfter(first, c[|b|..], second);
    }
  }

  lemma SentFirst(a: seq<Post>, b: seq<Post>, first: seq<Post>, second: seq<Post>)
    requires Sent(a, b, first, true)
    ensures Sent(a, b, first + second, true)
  {
    CutShortBefore(b[|a|..], first, second);
  }

  /** Makes the posts specified for one batch, or the first of them up to one that failed: the count of bad listens,
      or none. */
  method Send(service: Service, batch: seq<Listen>) returns (rejected: Option<nat>)
    modifies service
    ensures Sent(old(service.log), service.log, Posts(service.refuses, batch), rejected.None?)
    ensures rejected.Some? ==> rejected.value == Bad(service.refuses, batch)
    decreases |batch|
  {
    ghost var was := service.log;
    var status := service.Submit(batch);
    ghost var posted := service.log;
    match status {
      case Accepted => return Some(0);
      case Failed => return None;
      case Refused =>
    }
    if |batch| <= 1 {
      return Some(1);
    }
    ghost var (top, first, second) :=
      ([Post(batch, Refused)], Posts(service.refuses, batch[..|batch| / 2]), Posts(service.refuses, batch[|batch| / 2..]));
    Halved(service.refuses, batch);
    assert Sent(was, posted, top, false);
    hide Sent, Bad, Posts;
    var front := Send(service, batch[..|batch| / 2]);
    SentBoth(was, posted, service.log, top, first, front.None?);
    if front.None? {
      SentFirst(was, service.log, top + first, second);
      return None;
    }
    ghost var halfway := service.log;
    var back := Send(service, batch[|batch| / 2..]);
    SentBoth(was, halfway, service.log, top + first, second, back.None?);
    rejected := if back.None? then None else Some(front.value + back.value);
  }

  /** Posts, bad listens and good ones of a batch split in two are those of its parts, and the post refused. */
  lemma Halved(refuses: Listen -> bool, batch: seq<Listen>)
    requires Answer(refuses, batch) == Refused && |batch| > 1
    ensures var (front, back) := (batch[..|batch| / 2], batch[|batch| / 2..]);
      && Posts(refuses, batch) == ([Post(batch, Refused)] + Posts(refuses, front)) + Posts(refuses, back)
      && Bad(refuses, batch) == Bad(refuses, front) + Bad(refuses, back)
      && Good(refuses, batch) == Good(refuses, front) + Good(refuses, back)
  {
    hide Posts, Bad, Good, Answer;
    var (front, back) := (batch[..|batch| / 2], batch[|batch| / 2..]);
    HalvedPosts(refuses, batch, front, back);
    Regroup([Post(batch, Refused)], Posts(refuses, front), Posts(refuses, back));
    assert batch == front + back;
    BadOfBoth(refuses, front, back);
  }

  lemma HalvedPosts(refuses: Listen -> bool, batch: seq<Listen>, front: seq<Listen>, back: seq<Listen>)
    requires Answer(refuses, batch) == Refused && |batch| > 1
    requires front == batch[..|batch| / 2] && back == batch[|batch| / 2..]
    ensures Posts(refuses, batch) == [Post(batch, Refused)] + (Posts(refuses, front) + Posts(refuses, back))
  {
    hide Bad, Good, Answer;
  }

  lemma Regroup(a: seq<Post>, b: seq<Post>, c: seq<Post>)
    ensures a + (b + c) == (a + b) + c
  {
  }

  /** Posts all of `listens` as specified, a thousand to a batch: the count of bad ones, or none if a post failed. */
  method Submit(service: Service, listens: seq<Listen>) returns (rejected: Option<nat>)
    modifies service
    ensures Sent(old(service.log), service.log, AllPosts(service.refuses, listens, 0), rejected.None?)
    ensures rejected.Some? ==> rejected.value == Bad(service.refuses, listens)
  {
    hide Sent, Posts, Bad, AllPosts;
    ghost var was := service.log;
    var (i, count) := (0, 0);
    ghost var done: seq<Post> := [];
    SentNothing(was);
    SplitAt(service.refuses, listens, [], 0);
    while i < |listens|
      invariant i <= |listens| && Sent(was, service.log, done, false)
      invariant AllPosts(service.refuses, listens, 0) == done + AllPosts(service.refuses, listens, i)
      invariant count == Bad(service.refuses, listens[..i])
      decreases |listens| - i
    {
      ghost var (sofar, end) := (service.log, ChunkEnd(listens, i));
      var chunk := listens[i..if i + MAX_PER_SUBMISSION < |listens| then i + MAX_PER_SUBMISSION else |listens|];
      var rejected := Send(service, chunk);
      SentBoth(was, sofar, service.log, done, Posts(service.refuses, chunk), rejected.None?);
      SplitAt(service.refuses, listens, done, i);
      done := done + Posts(service.refuses, chunk);
      if rejected.None? {
        SentFirst(was, service.log, done, AllPosts(service.refuses, listens, end));
        return None;
      }
      assert listens[..end] == listens[..i] + chunk;
      BadOfBoth(service.refuses, listens[..i], chunk);
      count := count + rejected.value;
      i := i + |chunk|;
    }
    assert listens[..i] == listens;
    AtEnd(service.refuses, listens, done);
    rejected := Some(count);
  }

  lemma SentNothing(log: seq<Post>)
    ensures Sent(log, log, [], false) && forall refuses :: Bad(refuses, []) == 0
  {
  }

  /** A chunk's posts come next. */
  lemma SplitAt(refuses: Listen -> bool, listens: seq<Listen>, done: seq<Post>, i: nat)
    requires i <= |listens|
    ensures i == 0 ==> AllPosts(refuses, listens, 0) == [] + AllPosts(refuses, listens, 0)
    ensures i < |listens| ==> var end := ChunkEnd(listens, i);
      done + AllPosts(refuses, listens, i) == (done + Posts(refuses, listens[i..end])) + AllPosts(refuses, listens, end)
  {
    hide Posts;
  }

  lemma AtEnd(refuses: Listen -> bool, listens: seq<Listen>, done: seq<Post>)
    ensures done + AllPosts(refuses, listens, |listens|) == done
  {
  }

  lemma {:induction false} BadOfBoth(refuses: Listen -> bool, a: seq<Listen>, b: seq<Listen>)
    ensures Bad(refuses, a + b) == Bad(refuses, a) + Bad(refuses, b)
    ensures Good(refuses, a + b) == Good(refuses, a) + Good(refuses, b)
  {
    if a == [] {
      assert a + b == b;
    } else {
      assert (a + b)[1..] == a[1..] + b;
      BadOfBoth(refuses, a[1..], b);
    }
  }

  /** No post carries more than a thousand listens. */
  lemma {:induction false} PostsWithin(refuses: Listen -> bool, batch: seq<Listen>, most: nat)
    requires |batch| <= most
    ensures forall post :: post in Posts(refuses, batch) ==> |post.batch| <= most
    decreases |batch|
  {
    if Answer(refuses, batch) == Refused && |batch| > 1 {
      PostsWithin(refuses, batch[..|batch| / 2], most);
      PostsWithin(refuses, batch[|batch| / 2..], most);
    }
  }

  lemma {:induction false} AllPostsWithin(refuses: Listen -> bool, listens: seq<Listen>, i: nat)
    requires i <= |listens|
    ensures forall post :: post in AllPosts(refuses, listens, i) ==> |post.batch| <= 1000
    decreases |listens| - i
  {
    if i < |listens| {
      AllPostsWithin(refuses, listens, ChunkEnd(listens, i));
      PostsWithin(refuses, listens[i..ChunkEnd(listens, i)], 1000);
      hide Posts;
    }
  }

  // ---- What is accepted ----

  /** The listens of the batches the service took, in order. */
  function Taken(posts: seq<Post>): seq<Listen> {
    if posts == [] then []
    else (if posts[0].status == Accepted then posts[0].batch else []) + Taken(posts[1..])
  }

  lemma {:induction false} TakenOfBoth(a: seq<Post>, b: seq<Post>)
    ensures Taken(a + b) == Taken(a) + Taken(b)
  {
    if a == [] {
      assert a + b == b;
    } else {
      assert (a + b)[1..] == a[1..] + b;
      TakenOfBoth(a[1..], b);
    }
  }

  /** With no listen refused, all are good; with all refused, none. */
  lemma {:induction false} GoodCounts(refuses: Listen -> bool, batch: seq<Listen>)
    ensures |Good(refuses, batch)| + Bad(refuses, batch) == |batch|
    ensures Bad(refuses, batch) == 0 ==> Good(refuses, batch) == batch
  {
    if batch != [] {
      GoodCounts(refuses, batch[1..]);
    }
  }

  /** Every good listen is in exactly one accepted batch, in order. */
  lemma {:induction false} PostsTakeGood(refuses: Listen -> bool, batch: seq<Listen>)
    ensures Taken(Posts(refuses, batch)) == Good(refuses, batch)
    decreases |batch|
  {
    GoodCounts(refuses, batch);
    var top := [Post(batch, Answer(refuses, batch))];
    if Answer(refuses, batch) == Refused && |batch| > 1 {
      var (front, back) := (batch[..|batch| / 2], batch[|batch| / 2..]);
      assert Taken(top) == [];
      PostsTakeGood(refuses, front);
      PostsTakeGood(refuses, back);
      Halved(refuses, batch);
      hide Posts, Good, Taken;
      TakenOfBoth(top, Posts(refuses, front));
      TakenOfBoth(top + Posts(refuses, front), Posts(refuses, back));
    } else {
      assert Posts(refuses, batch) == top;
      assert top[1..] == [];
    }
  }

  lemma {:induction false} AllPostsTakeGood(refuses: Listen -> bool, listens: seq<Listen>, i: nat)
    requires i <= |listens|
    ensures Taken(AllPosts(refuses, listens, i)) == Good(refuses, listens[i..])
    decreases |listens| - i
  {
    if i < |listens| {
      var end := ChunkEnd(listens, i);
      AllPostsTakeGood(refuses, listens, end);
      PostsTakeGood(refuses, listens[i..end]);
      assert listens[i..] == listens[i..end] + listens[end..];
      BadOfBoth(refuses, listens[i..end], listens[end..]);
      TakenOfBoth(Posts(refuses, listens[i..end]), AllPosts(refuses, listens, end));
    }
  }

  /** A run that fails has had some of the good listens accepted, the first ones, each once. */
  lemma CutShortTakesFirst(posts: seq<Post>, expected: seq<Post>)
    requires CutShort(posts, expected)
    ensures Taken(posts) <= Taken(expected)
  {
    var k := |posts| - 1;
    assert posts == posts[..k] + [posts[k]] && expected == posts[..k] + expected[k..];
    TakenOfBoth(posts[..k], [posts[k]]);
    TakenOfBoth(posts[..k], expected[k..]);
    assert [posts[k]][1..] == [];
    assert Taken([posts[k]]) == [];
  }

  /** What a submission, from an empty log, has had accepted: all the good listens, in order, each once, or the
      first of them if the service failed. */
  lemma SubmitTakesGood(refuses: Listen -> bool, log: seq<Post>, listens: seq<Listen>, failed: bool)
    requires Sent([], log, AllPosts(refuses, listens, 0), failed)
    ensures if failed then Taken(log) <= Good(refuses, listens) else Taken(log) == Good(refuses, listens)
  {
    AllPostsTakeGood(refuses, listens, 0);
    assert listens[0..] == listens && log[0..] == log;
    if failed {
      CutShortTakesFirst(log, AllPosts(refuses, listens, 0));
    } else {
      assert [] + AllPosts(refuses, listens, 0) == AllPosts(refuses, listens, 0);
    }
  }

  // ---- What it costs ----

  /** How often a batch of `n` is halved until its parts are single. */
  function Halvings(n: nat): nat {
    if n <= 1 then 0 else 1 + Halvings(n - n / 2)
  }

  function Power(k: nat): nat {
    if k == 0 then 1 else 2 * Power(k - 1)
  }

  /** It is the logarithm of `n` to base 2, rounded up. */
  lemma {:induction false} HalvingsIsLog(n: nat)
    requires n > 0
    ensures n <= Power(Halvings(n)) && (n > 1 ==> Power(Halvings(n) - 1) < n)
  {
    if n > 1 {
      HalvingsIsLog(n - n / 2);
      if n - n / 2 > 1 {
        assert Power(Halvings(n) - 1) == 2 * Power(Halvings(n) - 2);
      }
    }
  }

  lemma {:induction false} HalvingsGrow(m: nat, n: nat)
    requires m <= n
    ensures Halvings(m) <= Halvings(n)
    decreases n
  {
    if m > 1 {
      HalvingsGrow(m - m / 2, n - n / 2);
    }
  }

  /** A batch of n costs at most 2n - 1 posts, and just that many if all its listens are bad. */
  lemma {:induction false} CostByLength(refuses: Listen -> bool, batch: seq<Listen>)
    requires batch != []
    ensures |Posts(refuses, batch)| <= 2 * |batch| - 1
    ensures Bad(refuses, batch) == |batch| ==> |Posts(refuses, batch)| == 2 * |batch| - 1
    decreases |batch|
  {
    if Answer(refuses, batch) == Refused && |batch| > 1 {
      var (front, back) := (batch[..|batch| / 2], batch[|batch| / 2..]);
      CostByLength(refuses, front);
      CostByLength(refuses, back);
      assert batch == front + back;
      BadOfBoth(refuses, front, back);
      GoodCounts(refuses, front);
      GoodCounts(refuses, back);
    }
  }

  /** With b bad listens in a batch of n, it costs at most two posts a halving for each. */
  lemma {:induction false} CostByBad(refuses: Listen -> bool, batch: seq<Listen>)
    ensures |Posts(refuses, batch)| <= 1 + 2 * (Bad(refuses, batch) * Halvings(|batch|))
    decreases |batch|
  {
    hide Posts, Bad, Halvings;
    if Answer(refuses, batch) == Refused && |batch| > 1 {
      var (front, back) := (batch[..|batch| / 2], batch[|batch| / 2..]);
      CostByBad(refuses, front);
      CostByBad(refuses, back);
      Halved(refuses, batch);
      SomeBad(refuses, batch);
      HalvingsGrow(|front|, |back|);
      HalvingsOfHalf(|batch|);
      hide Answer;
      Costs(Bad(refuses, front), Bad(refuses, back), Halvings(|front|), Halvings(|back|));
    } else {
      OnePost(refuses, batch);
      NoMoreTimes(Bad(refuses, batch), 0, Halvings(|batch|));
    }
  }

  lemma SomeBad(refuses: Listen -> bool, batch: seq<Listen>)
    requires Answer(refuses, batch) == Refused
    ensures Bad(refuses, batch) > 0
  {
  }

  lemma OnePost(refuses: Listen -> bool, batch: seq<Listen>)
    requires !(Answer(refuses, batch) == Refused && |batch| > 1)
    ensures |Posts(refuses, batch)| == 1
  {
  }

  lemma HalvingsOfHalf(n: nat)
    requires n > 1
    ensures Halvings(n) == 1 + Halvings(n - n / 2)
  {
  }

  lemma Costs(b: nat, c: nat, k: nat, l: nat)
    requires k <= l && b + c > 0
    ensures 3 + 2 * (b * k) + 2 * (c * l) <= 1 + 2 * ((b + c) * (1 + l))
  {
    assert b * k <= b * l;
    assert (b + c) * (1 + l) == b + c + b * l + c * l;
  }

  /** So a submission costs a post for each thousand listens, begun, and at most twenty more for each bad one. */
  lemma {:induction false} SubmitCost(refuses: Listen -> bool, listens: seq<Listen>, i: nat)
    requires i <= |listens|
    ensures |AllPosts(refuses, listens, i)| <= (|listens| - i + 999) / 1000 + 20 * Bad(refuses, listens[i..])
    decreases |listens| - i
  {
    if i < |listens| {
      var end := ChunkEnd(listens, i);
      SubmitCost(refuses, listens, end);
      var chunk := listens[i..end];
      ChunkCost(refuses, chunk);
      assert listens[i..] == chunk + listens[end..];
      BadOfBoth(refuses, chunk, listens[end..]);
      hide Posts, Bad;
    }
  }

  lemma ChunkCost(refuses: Listen -> bool, chunk: seq<Listen>)
    requires |chunk| <= 1000
    ensures |Posts(refuses, chunk)| <= 1 + 20 * Bad(refuses, chunk)
  {
    CostByBad(refuses, chunk);
    HalvingsGrow(|chunk|, 1000);
    ThousandHalvings();
    hide Posts, Bad, Halvings;
    NoMoreTimes(Bad(refuses, chunk), Halvings(|chunk|), 10);
  }

  lemma NoMoreTimes(b: nat, k: nat, l: nat)
    requires k <= l
    ensures b * k <= b * l
  {
  }

  lemma ThousandHalvings()
    ensures Halvings(1000) == 10
  {
    assert Halvings(16) == 4;
    assert Halvings(125) == 7;
    assert Halvings(1000) == 3 + Halvings(125);
  }

  // ---- A delivery ----

  /** A play of a track, and for how long. */
  datatype Play = Play(listen: Listen, listenTimeMs: nat)

  /** Whether enough of a play was heard. */
  function Counts(durationMs: nat, listenTimeMs: nat): bool {
    var half := if durationMs == 0 then U64_MAX else durationMs / 2;
    listenTimeMs >= if half < 240_000 then half else 240_000
  }

  /** Four minutes always count, and half a track of known length does. */
  lemma CountsByHalf(durationMs: nat, listenTimeMs: nat)
    ensures Counts(durationMs, listenTimeMs) <==>
      listenTimeMs >= 240_000 || (durationMs > 0 && 2 * listenTimeMs + 1 >= durationMs)
  {
  }

  function Joined(artists: seq<string>): string {
    if artists == [] then ""
    else if |artists| == 1 then artists[0]
    else artists[0] + ", " + Joined(artists[1..])
  }

  /** White space, as Unicode has it. */
  predicate White(c: char) {
    var u := c as int;
    || 9 <= u <= 13 || u == 0x20 || u == 0x85 || u == 0xA0 || u == 0x1680 || 0x2000 <= u <= 0x200A
    || u == 0x2028 || u == 0x2029 || u == 0x202F || u == 0x205F || u == 0x3000
  }

  predicate Usable(s: string) {
    (exists i :: 0 <= i < |s| && !White(s[i])) && '\0' !in s
  }

  predicate Sendable(l: Listen) {
    Usable(l.title) && Usable(Joined(l.artists))
  }

  /** Of so many plays, those heard too little, those with no name to send, and those turned away. */
  datatype Delivery = Delivery(plays: nat, short: nat, unnamed: nat, rejected: nat)

  function Listened(plays: seq<Play>): seq<Listen> {
    if plays == [] then []
    else (if Counts(plays[0].listen.durationMs, plays[0].listenTimeMs) then [plays[0].listen] else []) + Listened(plays[1..])
  }

  function Named(listens: seq<Listen>): seq<Listen> {
    if listens == [] then []
    else (if Sendable(listens[0]) then [listens[0]] else []) + Named(listens[1..])
  }

  // ---- Which plays are sent ----

  /** Four minutes were heard, or half of a track of known length, to the millisecond below. */
  predicate HeardEnough(p: Play) {
    p.listenTimeMs >= 240_000 || (p.listen.durationMs > 0 && 2 * p.listenTimeMs + 1 >= p.listen.durationMs)
  }

  /** Something of it shows. */
  ghost predicate Shows(s: string) {
    exists i :: 0 <= i < |s| && !White(s[i])
  }

  /** The title shows, and so does the artist, if there is one, or there are two or more, since a comma shows; and no
      name of them holds a NUL. */
  ghost predicate NamedWell(l: Listen) {
    && Shows(l.title) && '\0' !in l.title
    && (|l.artists| > 1 || (|l.artists| == 1 && Shows(l.artists[0])))
    && forall k :: 0 <= k < |l.artists| ==> '\0' !in l.artists[k]
  }

  lemma {:induction false} JoinedHolds(artists: seq<string>)
    ensures '\0' in Joined(artists) <==> exists k :: 0 <= k < |artists| && '\0' in artists[k]
    ensures |artists| > 1 ==> Shows(Joined(artists))
  {
    if |artists| > 1 {
      JoinedHolds(artists[1..]);
      var rest := Joined(artists[1..]);
      assert Joined(artists)[|artists[0]|] == ',';
      assert '\0' in Joined(artists) <==> '\0' in artists[0] || '\0' in rest;
      if k :| 0 <= k < |artists| && '\0' in artists[k] {
        assert k > 0 ==> artists[1..][k - 1] == artists[k];
      }
    }
  }

  /** Just such a listen is sendable. */
  lemma SendableExactly(l: Listen)
    ensures Sendable(l) <==> NamedWell(l)
  {
    JoinedHolds(l.artists);
  }

  /** The elements of `s` to keep. */
  ghost function Where<T>(s: seq<T>, keep: T -> bool): seq<T> {
    if s == [] then []
    else
      var n := |s| - 1;
      Where(s[..n], keep) + if keep(s[n]) then [s[n]] else []
  }

  /** The elements at increasing places, which are those of just the elements to keep. */
  ghost predicate PickedAt<T>(s: seq<T>, picked: seq<T>, places: seq<nat>, keep: T -> bool) {
    && |picked| == |places|
    && (forall i, j :: 0 <= i < j < |places| ==> places[i] < places[j])
    && (forall i :: 0 <= i < |places| ==> places[i] < |s| && picked[i] == s[places[i]])
    && forall k: nat :: k < |s| ==> (k in places <==> keep(s[k]))
  }

  lemma {:induction false} WherePlaces<T>(s: seq<T>, keep: T -> bool) returns (places: seq<nat>)
    ensures PickedAt(s, Where(s, keep), places, keep)
  {
    if s == [] {
      places := [];
    } else {
      var n := |s| - 1;
      var front := WherePlaces(s[..n], keep);
      places := if keep(s[n]) then front + [n] else front;
      PlacesNext(s, front, keep);
    }
  }

  lemma PlacesNext<T>(s: seq<T>, front: seq<nat>, keep: T -> bool)
    requires s != [] && PickedAt(s[..|s| - 1], Where(s[..|s| - 1], keep), front, keep)
    ensures PickedAt(s, Where(s, keep), if keep(s[|s| - 1]) then front + [|s| - 1] else front, keep)
  {
    var n := |s| - 1;
    var before := Where(s[..n], keep);
    assert Where(s, keep) == before + if keep(s[n]) then [s[n]] else [];
    hide Where;
    if keep(s[n]) {
      PlacesWith(s, before, front, keep);
    } else {
      PlacesWithout(s, before, front, keep);
    }
  }

  lemma PlacesWith<T>(s: seq<T>, before: seq<T>, front: seq<nat>, keep: T -> bool)
    requires s != [] && PickedAt(s[..|s| - 1], before, front, keep) && keep(s[|s| - 1])
    ensures PickedAt(s, before + [s[|s| - 1]], front + [|s| - 1], keep)
  {
    var n := |s| - 1;
    var places := front + [n];
    assert places[|front|] == n;
    forall k: nat | k < |s| ensures k in places <==> keep(s[k]) {
      if k < n {
        assert s[..n][k] == s[k];
      }
    }
  }

  lemma PlacesWithout<T>(s: seq<T>, before: seq<T>, front: seq<nat>, keep: T -> bool)
    requires s != [] && PickedAt(s[..|s| - 1], before, front, keep) && !keep(s[|s| - 1])
    ensures PickedAt(s, before + [], front, keep)
  {
    var n := |s| - 1;
    assert before + [] == before;
    forall k: nat | k < |s| ensures k in front <==> keep(s[k]) {
      if k < n {
        assert s[..n][k] == s[k];
      }
    }
  }

  lemma {:induction false} WhereBoth<T>(a: seq<T>, b: seq<T>, keep: T -> bool)
    ensures Where(a + b, keep) == Where(a, keep) + Where(b, keep)
  {
    if b == [] {
      assert a + b == a;
    } else {
      var n := |b| - 1;
      assert (a + b)[..|a + b| - 1] == a + b[..n];
      WhereBoth(a, b[..n], keep);
    }
  }

  lemma WhereFirst<T>(s: seq<T>, keep: T -> bool)
    requires s != []
    ensures Where(s, keep) == (if keep(s[0]) then [s[0]] else []) + Where(s[1..], keep)
  {
    assert s == [s[0]] + s[1..];
    WhereBoth([s[0]], s[1..], keep);
    assert [s[0]][..0] == [];
    assert Where([s[0]], keep) == Where([], keep) + if keep(s[0]) then [s[0]] else [];
  }

  function ListensOf(plays: seq<Play>): (listens: seq<Listen>)
    ensures |listens| == |plays| && forall i :: 0 <= i < |plays| ==> listens[i] == plays[i].listen
  {
    if plays == [] then [] else [plays[0].listen] + ListensOf(plays[1..])
  }

  lemma ListensOfOne(p: Play, rest: seq<Play>)
    ensures ListensOf([p] + rest) == [p.listen] + ListensOf(rest) && ListensOf([] + rest) == ListensOf(rest)
  {
    assert ([p] + rest)[1..] == rest;
    assert [] + rest == rest;
  }

  /** Whether a play is to be sent, and whether the service takes it. */
  ghost predicate Due(p: Play) {
    HeardEnough(p) && NamedWell(p.listen)
  }

  ghost predicate Lands(refuses: Listen -> bool, p: Play) {
    Due(p) && !refuses(p.listen)
  }

  ghost function Heard(): Play -> bool {
    (p: Play) => HeardEnough(p)
  }

  ghost function Dues(): Play -> bool {
    (p: Play) => Due(p)
  }

  ghost function Landing(refuses: Listen -> bool): Play -> bool {
    (p: Play) => Lands(refuses, p)
  }

  lemma {:induction false} ListenedWhere(plays: seq<Play>)
    ensures Listened(plays) == ListensOf(Where(plays, Heard()))
  {
    if plays != [] {
      ListenedWhere(plays[1..]);
      CountsByHalf(plays[0].listen.durationMs, plays[0].listenTimeMs);
      WhereFirst(plays, Heard());
    } else {
      assert ListensOf([]) == [];
    }
  }

  /** What is left of listens by two tests on their plays is left by both. */
  lemma {:induction false} NamedWhere(plays: seq<Play>)
    ensures Named(Listened(plays)) == ListensOf(Where(plays, Dues()))
  {
    if plays != [] {
      NamedWhere(plays[1..]);
      WhereFirst(plays, Dues());
      ListensOfOne(plays[0], Where(plays[1..], Dues()));
      NamedFirst(plays);
      hide NamedWell, Sendable, Counts, Where, Named, Listened, ListensOf;
    } else {
      assert ListensOf([]) == [];
    }
  }

  /** The first of the plays is left just if it is due. */
  lemma NamedFirst(plays: seq<Play>)
    requires plays != []
    ensures Named(Listened(plays)) == if Due(plays[0]) then [plays[0].listen] + Named(Listened(plays[1..])) else Named(Listened(plays[1..]))
  {
    CountsByHalf(plays[0].listen.durationMs, plays[0].listenTimeMs);
    SendableExactly(plays[0].listen);
    hide NamedWell, Sendable, Counts;
    var rest := Listened(plays[1..]);
    if HeardEnough(plays[0]) {
      assert Listened(plays) == [plays[0].listen] + rest;
      assert ([plays[0].listen] + rest)[1..] == rest;
    } else {
      assert Listened(plays) == rest;
    }
  }

  lemma {:induction false} LandsWhere(refuses: Listen -> bool, plays: seq<Play>)
    ensures Good(refuses, Named(Listened(plays))) == ListensOf(Where(plays, Landing(refuses)))
  {
    if plays != [] {
      LandsWhere(refuses, plays[1..]);
      WhereFirst(plays, Landing(refuses));
      ListensOfOne(plays[0], Where(plays[1..], Landing(refuses)));
      NamedFirst(plays);
      var rest := Named(Listened(plays[1..]));
      hide NamedWell, Sendable, Counts, Where, Named, Listened, ListensOf;
      if Due(plays[0]) {
        assert ([plays[0].listen] + rest)[1..] == rest;
      }
    } else {
      assert ListensOf([]) == [];
    }
  }

  // ---- The delivery ----

  lemma {:induction false} NamedNoMore(listens: seq<Listen>)
    ensures |Named(listens)| <= |listens|
  {
    if listens != [] {
      NamedNoMore(listens[1..]);
    }
  }

  lemma {:induction false} ListenedNoMore(plays: seq<Play>)
    ensures |Listened(plays)| <= |plays|
  {
    if plays != [] {
      ListenedNoMore(plays[1..]);
    }
  }

  /** The posts had accepted, in order and each once, the listens of just the plays that land. */
  ghost predicate Landed(refuses: Listen -> bool, plays: seq<Play>, posts: seq<Post>) {
    exists picked, places :: PickedAt(plays, picked, places, Landing(refuses)) && Taken(posts) == ListensOf(picked)
  }

  lemma AllLanded(refuses: Listen -> bool, plays: seq<Play>)
    ensures Landed(refuses, plays, AllPosts(refuses, Named(Listened(plays)), 0))
  {
    var listens := Named(Listened(plays));
    AllPostsTakeGood(refuses, listens, 0);
    assert listens[0..] == listens;
    LandsWhere(refuses, plays);
    var places := WherePlaces(plays, Landing(refuses));
    hide AllPosts, Taken, Good, Where, Lands;
    assert PickedAt(plays, Where(plays, Landing(refuses)), places, Landing(refuses));
  }

  /** Submits what was heard enough and is named well. The counts are of the plays heard too little, of those of the rest
      not named well, and of those of the rest refused, which leave just the plays accepted; none if a post failed. */
  method Deliver(service: Service, plays: seq<Play>) returns (delivery: Option<Delivery>)
    modifies service
    ensures Sent(old(service.log), service.log, AllPosts(service.refuses, Named(Listened(plays)), 0), delivery.None?)
    ensures delivery.Some? ==> old(service.log) <= service.log
    ensures delivery.Some? ==> Landed(service.refuses, plays, service.log[|old(service.log)|..])
    ensures delivery.Some? ==>
      var d := delivery.value;
      && d.plays == |plays|
      && d.short == |plays| - |Where(plays, Heard())|
      && d.unnamed == |Where(plays, Heard())| - |Where(plays, Dues())|
      && d.rejected == |Where(plays, Dues())| - |Where(plays, Landing(service.refuses))|
      && d.plays - d.short - d.unnamed - d.rejected == |Taken(service.log[|old(service.log)|..])|
  {
    ghost var was := service.log;
    ListenedWhere(plays);
    NamedWhere(plays);
    LandsWhere(service.refuses, plays);
    AllLanded(service.refuses, plays);
    AllPostsTakeGood(service.refuses, Named(Listened(plays)), 0);
    hide Where, Landed, AllPosts, Taken, NamedWell;
    ListenedNoMore(plays);
    var listens := Listened(plays);
    var short: nat := |plays| - |listens|;
    NamedNoMore(listens);
    listens := Named(listens);
    assert listens[0..] == listens;
    var unnamed: nat := |plays| - short - |listens|;
    GoodCounts(service.refuses, listens);
    hide Listened, Named, Good, Bad;
    var rejected := Submit(service, listens);
    if rejected.None? {
      return None;
    }
    assert service.log[|was|..] == AllPosts(service.refuses, listens, 0);
    delivery := Some(Delivery(|plays|, short, unnamed, rejected.value));
  }
}

/** The eligibility store and the startup sweep `fetchThreads` (main.ts:54-80).

    The store is the pair of process-wide collections `CACHED_THREADS`
    (thread id to thread) and `CACHED_MESSAGES` (message id to message),
    main.ts:19-20. Everything the sweep would fetch over the network is an
    input here: the channel lookup, the channel's thread listing, and each
    thread's message history in creation order. A fetch that rejects is an
    `Err`. The concurrent per-thread callbacks of `Promise.all` become a
    sequential fold, justified by `SweepSwap`: the writes of two distinct
    threads commute.
 */
module EligibilityStore {
  import opened Wrappers

  type ThreadId = string
  type MessageId = string

  /** The live handles the bot keeps; only their identity matters here.
      A message handle remembers which thread it was fetched from. */
  datatype ThreadHandle = ThreadHandle(id: ThreadId)
  datatype MessageHandle = MessageHandle(id: MessageId, thread: ThreadId)

  datatype Store = Store(threads: map<ThreadId, ThreadHandle>, messages: map<MessageId, MessageHandle>)

  /** Both collections start empty when the process starts. */
  const Empty := Store(map[], map[])

  /** The eligibility test of the reaction handler (`CACHED_MESSAGES.has`). */
  predicate IsEligible(s: Store, m: MessageId) {
    m in s.messages
  }

  /** Every entry is filed under its own id, and every message belongs to a
      registered thread. */
  ghost predicate Valid(s: Store) {
    && (forall t | t in s.threads :: s.threads[t].id == t)
    && (forall m | m in s.messages :: s.messages[m].id == m && s.messages[m].thread in s.threads)
  }

  /** The channel kinds the sweep can meet; only `GuildForum` is accepted. */
  datatype ChannelKind = GuildText | GuildVoice | GuildCategory | GuildAnnouncement | GuildStageVoice | GuildForum | GuildMedia

  /** A thread as listed by `channel.threads.fetch()`: its id, and its message
      history oldest first (`Err` when the thread's message fetch rejects). */
  datatype ThreadData = ThreadData(id: ThreadId, history: Result<seq<MessageId>, string>)

  /** A fetched channel: its kind and its thread listing (`Err` when
      `channel.threads.fetch()` rejects). */
  datatype Channel = Channel(kind: ChannelKind, listing: Result<seq<ThreadData>, string>)

  datatype StartupError = NotForum | FetchFailed(reason: string)

  /** The `limit` of the per-thread message fetch (main.ts:69). */
  const FirstMessageLimit: nat := 1

  /** A thread after its message fetch: the page of messages returned. */
  datatype Fetched = Fetched(id: ThreadId, page: seq<MessageId>)

  // ---------------------------------------------------------------------------
  // Fetching

  /** `thread.messages.fetch({ after: '0', limit })`: the oldest `limit`
      messages of the history, in order. */
  function OldestFirst(history: seq<MessageId>, limit: nat): (page: seq<MessageId>)
    ensures page <= history
    ensures |page| == if |history| < limit then |history| else limit
  {
    if |history| < limit then history else history[..limit]
  }

  /** Every per-thread message fetch of a listing resolved. */
  ghost predicate AllFetched(ts: seq<ThreadData>) {
    forall i | 0 <= i < |ts| :: ts[i].history.Ok?
  }

  /** The per-thread fetches joined as by `Promise.all`: one rejection fails
      the whole join; otherwise each thread keeps its first-message page. */
  function FetchPages(ts: seq<ThreadData>): (r: Result<seq<Fetched>, string>)
    ensures r.Ok? <==> AllFetched(ts)
    ensures r.Ok? ==> |r.value| == |ts|
    ensures r.Ok? ==> forall i | 0 <= i < |ts| ::
      r.value[i] == Fetched(ts[i].id, OldestFirst(ts[i].history.value, FirstMessageLimit))
  {
    if ts == [] then Ok([])
    else
      match ts[0].history
      case Err(e) => Err(e)
      case Ok(h) =>
        match FetchPages(ts[1..])
        case Err(e) => Err(e)
        case Ok(rest) => Ok([Fetched(ts[0].id, OldestFirst(h, FirstMessageLimit))] + rest)
  }

  // ---------------------------------------------------------------------------
  // Registering

  /** The entries one page contributes: each of its messages, filed under its
      own id and marked as belonging to thread `t`. */
  function PageEntries(t: ThreadId, page: seq<MessageId>): (e: map<MessageId, MessageHandle>)
    ensures e.Keys == set m | m in page
  {
    map m | m in page :: MessageHandle(m, t)
  }

  /** The inner loop `for (const [id, message] of messages)` of one thread:
      each message of the page is filed under its id, later writes winning.
      The loop adds exactly the page's entries and changes nothing else. */
  function RegisterMessages(s: Store, t: ThreadId, page: seq<MessageId>): (r: Store)
    ensures r.threads == s.threads
    ensures r.messages == s.messages + PageEntries(t, page)
    decreases |page|
  {
    if page == [] then
      assert s.messages + PageEntries(t, page) == s.messages;
      s
    else
      var s1 := s.(messages := s.messages[page[0] := MessageHandle(page[0], t)]);
      assert s1.messages + PageEntries(t, page[1..]) == s.messages + PageEntries(t, page) by {
        assert forall m | m in page :: m == page[0] || m in page[1..];
      }
      RegisterMessages(s1, t, page[1..])
  }

  /** One per-thread callback: register the thread, then its page. */
  function RegisterThread(s: Store, f: Fetched): (r: Store)
    ensures r == Store(s.threads[f.id := ThreadHandle(f.id)], s.messages + PageEntries(f.id, f.page))
  {
    RegisterMessages(s.(threads := s.threads[f.id := ThreadHandle(f.id)]), f.id, f.page)
  }

  /** The ids of the threads in a fetched list. */
  ghost function ThreadIds(fs: seq<Fetched>): set<ThreadId> {
    set i | 0 <= i < |fs| :: fs[i].id
  }

  /** Every message id on any page of a fetched list. */
  ghost function PageIds(fs: seq<Fetched>): set<MessageId> {
    set i, m | 0 <= i < |fs| && m in fs[i].page :: m
  }

  /** The message ids on the pages of the entries for thread `t`. */
  ghost function PagesOf(fs: seq<Fetched>, t: ThreadId): set<MessageId> {
    set i, m | 0 <= i < |fs| && fs[i].id == t && m in fs[i].page :: m
  }

  /** The sweep as a sequential fold, one callback after another. */
  function Sweep(s: Store, fs: seq<Fetched>): (r: Store)
    ensures r.threads.Keys == s.threads.Keys + ThreadIds(fs)
    ensures r.messages.Keys == s.messages.Keys + PageIds(fs)
    decreases |fs|
  {
    if fs == [] then s
    else
      UnfoldIds(fs);
      Sweep(RegisterThread(s, fs[0]), fs[1..])
  }

  /** `fetchThreads`: the channel must exist and be a forum (main.ts:57-59)
      before anything is fetched or written; any rejected fetch fails the
      sweep, which then leaves no store to continue from. */
  function FetchThreads(lookup: Result<Option<Channel>, string>): (r: Result<Store, StartupError>)
    ensures lookup.Ok? && (lookup.value.None? || lookup.value.value.kind != GuildForum) ==> r == Err(NotForum)
    ensures lookup.Err? ==> r.Err?
    ensures r.Ok? <==>
      && lookup.Ok? && lookup.value.Some? && lookup.value.value.kind == GuildForum
      && lookup.value.value.listing.Ok?
      && AllFetched(lookup.value.value.listing.value)
  {
    match lookup
    case Err(e) => Err(FetchFailed(e))
    case Ok(None) => Err(NotForum)
    case Ok(Some(channel)) =>
      if channel.kind != GuildForum then Err(NotForum)
      else
        match channel.listing
        case Err(e) => Err(FetchFailed(e))
        case Ok(ts) =>
          match FetchPages(ts)
          case Err(e) => Err(FetchFailed(e))
          case Ok(fs) => Ok(Sweep(Empty, fs))
  }

  // ---------------------------------------------------------------------------
  // Reference descriptions of a successful sweep, in terms of the listing

  /** The ids of the listed threads. */
  ghost function ListedIds(ts: seq<ThreadData>): set<ThreadId> {
    set i | 0 <= i < |ts| :: ts[i].id
  }

  /** The first message of every listed thread that has one. */
  ghost function FirstMessages(ts: seq<ThreadData>): set<MessageId> {
    set i | 0 <= i < |ts| && ts[i].history.Ok? && |ts[i].history.value| > 0 :: ts[i].history.value[0]
  }

  /** Thread ids in a listing are distinct: the listing is a collection keyed
      by thread id. */
  ghost predicate DistinctIds(ts: seq<ThreadData>) {
    forall i, j | 0 <= i < |ts| && 0 <= j < |ts| && ts[i].id == ts[j].id :: i == j
  }

  /** The listing of a lookup that `FetchThreads` accepted. */
  function ListingOf(lookup: Result<Option<Channel>, string>): seq<ThreadData>
    requires lookup.Ok? && lookup.value.Some? && lookup.value.value.listing.Ok?
  {
    lookup.value.value.listing.value
  }

  // ---------------------------------------------------------------------------
  // Lemmas

  lemma UnfoldIds(fs: seq<Fetched>)
    requires fs != []
    ensures ThreadIds(fs) == {fs[0].id} + ThreadIds(fs[1..])
    ensures PageIds(fs) == (set m | m in fs[0].page) + PageIds(fs[1..])
    ensures forall t :: PagesOf(fs, t) == (if fs[0].id == t then set m | m in fs[0].page else {}) + PagesOf(fs[1..], t)
  {
    forall x | x in ThreadIds(fs) ensures x in {fs[0].id} + ThreadIds(fs[1..]) {
      var i :| 0 <= i < |fs| && fs[i].id == x;
      if i > 0 { assert fs[1..][i - 1].id == x; }
    }
    forall x | x in ThreadIds(fs[1..]) ensures x in ThreadIds(fs) {
      var i :| 0 <= i < |fs[1..]| && fs[1..][i].id == x;
      assert fs[i + 1].id == x;
    }
    forall x | x in PageIds(fs) ensures x in (set m | m in fs[0].page) + PageIds(fs[1..]) {
      var i :| 0 <= i < |fs| && x in fs[i].page;
      if i > 0 { assert x in fs[1..][i - 1].page; }
    }
    forall x | x in PageIds(fs[1..]) ensures x in PageIds(fs) {
      var i :| 0 <= i < |fs[1..]| && x in fs[1..][i].page;
      assert x in fs[i + 1].page;
    }
    forall t ensures PagesOf(fs, t) == (if fs[0].id == t then set m | m in fs[0].page else {}) + PagesOf(fs[1..], t) {
      forall x | x in PagesOf(fs, t)
        ensures x in (if fs[0].id == t then set m | m in fs[0].page else {}) + PagesOf(fs[1..], t)
      {
        var i :| 0 <= i < |fs| && fs[i].id == t && x in fs[i].page;
        if i > 0 { assert fs[1..][i - 1].id == t && x in fs[1..][i - 1].page; }
      }
      forall x | x in PagesOf(fs[1..], t) ensures x in PagesOf(fs, t) {
        var i :| 0 <= i < |fs[1..]| && fs[1..][i].id == t && x in fs[1..][i].page;
        assert fs[i + 1].id == t && x in fs[i + 1].page;
      }
    }
  }

  /** The sweep keeps a store `Valid`, files every thread under its id, and
      files every message it writes under the thread whose page held it;
      entries it does not write are left as they were. */
  lemma {:induction false} SweepProvenance(s: Store, fs: seq<Fetched>)
    requires Valid(s)
    ensures Valid(Sweep(s, fs))
    ensures forall m | m in Sweep(s, fs).messages && m in PageIds(fs) ::
      m in PagesOf(fs, Sweep(s, fs).messages[m].thread)
    ensures forall m | m in Sweep(s, fs).messages && m !in PageIds(fs) ::
      Sweep(s, fs).messages[m] == s.messages[m]
    decreases |fs|
  {
    if fs != [] {
      UnfoldIds(fs);
      var s1 := RegisterThread(s, fs[0]);
      assert Valid(s1);
      SweepProvenance(s1, fs[1..]);
      var r := Sweep(s, fs);
      assert r == Sweep(s1, fs[1..]);
      forall m | m in r.messages && m in PageIds(fs)
        ensures m in PagesOf(fs, r.messages[m].thread)
      {
        if m !in PageIds(fs[1..]) {
          assert r.messages[m] == s1.messages[m];
        }
      }
    }
  }

  /** A sweep over `x + y` is the sweep over `x` followed by the one over `y`. */
  lemma {:induction false} SweepAppend(s: Store, x: seq<Fetched>, y: seq<Fetched>)
    ensures Sweep(s, x + y) == Sweep(Sweep(s, x), y)
    decreases |x|
  {
    if x == [] {
      assert x + y == y;
    } else {
      var s1 := RegisterThread(s, x[0]);
      assert (x + y)[0] == x[0];
      assert (x + y)[1..] == x[1..] + y;
      assert Sweep(s, x + y) == Sweep(s1, x[1..] + y);
      assert Sweep(s, x) == Sweep(s1, x[1..]);
      SweepAppend(s1, x[1..], y);
    }
  }

  /** Two callbacks for distinct threads with disjoint pages commute. */
  lemma RegisterCommute(s: Store, a: Fetched, b: Fetched)
    requires a.id != b.id
    requires forall m | m in a.page :: m !in b.page
    ensures RegisterThread(RegisterThread(s, a), b) == RegisterThread(RegisterThread(s, b), a)
  {
    var ta, tb := ThreadHandle(a.id), ThreadHandle(b.id);
    var ea, eb := PageEntries(a.id, a.page), PageEntries(b.id, b.page);
    assert s.threads[a.id := ta][b.id := tb] == s.threads[b.id := tb][a.id := ta];
    assert s.messages + ea + eb == s.messages + eb + ea;
  }

  /** The order in which the per-thread callbacks finish does not matter:
      swapping two neighbouring threads (distinct ids, disjoint pages) leaves
      the final store unchanged. Any reordering is a chain of such swaps. */
  lemma SweepSwap(s: Store, x: seq<Fetched>, a: Fetched, b: Fetched, y: seq<Fetched>)
    requires a.id != b.id
    requires forall m | m in a.page :: m !in b.page
    ensures Sweep(s, x + [a, b] + y) == Sweep(s, x + [b, a] + y)
  {
    SweepAppend(s, x + [a, b], y);
    SweepAppend(s, x, [a, b]);
    SweepAppend(s, x + [b, a], y);
    SweepAppend(s, x, [b, a]);
    var sx := Sweep(s, x);
    assert Sweep(sx, [a, b]) == Sweep(RegisterThread(sx, a), [b]);
    assert Sweep(RegisterThread(sx, a), [b]) == RegisterThread(RegisterThread(sx, a), b);
    assert Sweep(sx, [b, a]) == Sweep(RegisterThread(sx, b), [a]);
    assert Sweep(RegisterThread(sx, b), [a]) == RegisterThread(RegisterThread(sx, b), a);
    RegisterCommute(sx, a, b);
  }

  // ---------------------------------------------------------------------------
  // What a successful `fetchThreads` leaves behind

  /** With `limit: 1` a thread's page is empty or holds its first message. */
  lemma OldestFirstSingle(history: seq<MessageId>)
    ensures OldestFirst(history, FirstMessageLimit) == if history == [] then [] else [history[0]]
  {
    var page := OldestFirst(history, FirstMessageLimit);
    if history != [] {
      assert page == [page[0]];
    }
  }

  /** The pages of a successful fetch, one per listed thread, in listing order. */
  lemma FetchedPages(ts: seq<ThreadData>, i: int)
    requires FetchPages(ts).Ok? && 0 <= i < |ts|
    ensures ts[i].history.Ok?
    ensures FetchPages(ts).value[i].id == ts[i].id
    ensures FetchPages(ts).value[i].page == if ts[i].history.value == [] then [] else [ts[i].history.value[0]]
  {
    OldestFirstSingle(ts[i].history.value);
  }

  /** A successful sweep tracks exactly the listed threads and exactly the
      first message of every listed thread that has one. */
  lemma FetchThreadsContents(lookup: Result<Option<Channel>, string>)
    requires FetchThreads(lookup).Ok?
    ensures Valid(FetchThreads(lookup).value)
    ensures FetchThreads(lookup).value.threads.Keys == ListedIds(ListingOf(lookup))
    ensures FetchThreads(lookup).value.messages.Keys == FirstMessages(ListingOf(lookup))
  {
    var ts := ListingOf(lookup);
    var fs := FetchPages(ts).value;
    SweepProvenance(Empty, fs);
    forall t | t in ThreadIds(fs) ensures t in ListedIds(ts) {
      var i :| 0 <= i < |fs| && fs[i].id == t;
      FetchedPages(ts, i);
    }
    forall t | t in ListedIds(ts) ensures t in ThreadIds(fs) {
      var i :| 0 <= i < |ts| && ts[i].id == t;
      FetchedPages(ts, i);
    }
    forall m | m in PageIds(fs) ensures m in FirstMessages(ts) {
      var i :| 0 <= i < |fs| && m in fs[i].page;
      FetchedPages(ts, i);
    }
    forall m | m in FirstMessages(ts) ensures m in PageIds(fs) {
      var i :| 0 <= i < |ts| && ts[i].history.Ok? && |ts[i].history.value| > 0 && ts[i].history.value[0] == m;
      FetchedPages(ts, i);
      assert m in fs[i].page;
    }
  }

  /** Each thread contributes at most one message entry: two tracked messages
      filed under the same thread are the same message. */
  lemma AtMostOneMessagePerThread(lookup: Result<Option<Channel>, string>)
    requires FetchThreads(lookup).Ok?
    requires DistinctIds(ListingOf(lookup))
    ensures forall m1, m2 | m1 in FetchThreads(lookup).value.messages && m2 in FetchThreads(lookup).value.messages ::
      FetchThreads(lookup).value.messages[m1].thread == FetchThreads(lookup).value.messages[m2].thread ==> m1 == m2
  {
    var ts := ListingOf(lookup);
    var fs := FetchPages(ts).value;
    var msgs := FetchThreads(lookup).value.messages;
    SweepProvenance(Empty, fs);
    forall m1, m2 | m1 in msgs && m2 in msgs && msgs[m1].thread == msgs[m2].thread
      ensures m1 == m2
    {
      var t := msgs[m1].thread;
      var i1, x1 :| 0 <= i1 < |fs| && fs[i1].id == t && x1 in fs[i1].page && x1 == m1;
      var i2, x2 :| 0 <= i2 < |fs| && fs[i2].id == t && x2 in fs[i2].page && x2 == m2;
      FetchedPages(ts, i1);
      FetchedPages(ts, i2);
      assert i1 == i2;
    }
  }

  /** A thread without messages is tracked, but no message is filed under it. */
  lemma SilentThreadTracked(lookup: Result<Option<Channel>, string>, i: int)
    requires FetchThreads(lookup).Ok?
    requires DistinctIds(ListingOf(lookup))
    requires 0 <= i < |ListingOf(lookup)| && ListingOf(lookup)[i].history == Ok([])
    ensures ListingOf(lookup)[i].id in FetchThreads(lookup).value.threads
    ensures forall m | m in FetchThreads(lookup).value.messages ::
      FetchThreads(lookup).value.messages[m].thread != ListingOf(lookup)[i].id
  {
    var ts := ListingOf(lookup);
    var fs := FetchPages(ts).value;
    var msgs := FetchThreads(lookup).value.messages;
    FetchThreadsContents(lookup);
    SweepProvenance(Empty, fs);
    forall m | m in msgs ensures msgs[m].thread != ts[i].id {
      if msgs[m].thread == ts[i].id {
        var j, x :| 0 <= j < |fs| && fs[j].id == ts[i].id && x in fs[j].page && x == m;
        FetchedPages(ts, j);
        FetchedPages(ts, i);
        assert false;
      }
    }
  }

  /** A list of pairwise distinct elements has as many distinct elements as
      entries. */
  lemma {:induction false} DistinctCount<T>(xs: seq<T>)
    requires forall i, j | 0 <= i < |xs| && 0 <= j < |xs| && xs[i] == xs[j] :: i == j
    ensures |set x | x in xs| == |xs|
    decreases |xs|
  {
    if xs != [] {
      var rest := xs[1..];
      DistinctCount(rest);
      assert (set x | x in xs) == {xs[0]} + (set x | x in rest);
      assert xs[0] !in rest by {
        forall k | 0 <= k < |rest| ensures rest[k] != xs[0] {
          assert rest[k] == xs[k + 1];
        }
      }
    }
  }

  lemma ListedIdsCount(ts: seq<ThreadData>)
    requires DistinctIds(ts)
    ensures |ListedIds(ts)| == |ts|
  {
    var ids := seq(|ts|, i requires 0 <= i < |ts| => ts[i].id);
    DistinctCount(ids);
    forall x | x in ids ensures x in ListedIds(ts) {
      var i :| 0 <= i < |ids| && ids[i] == x;
      assert ts[i].id == x;
    }
    forall x | x in ListedIds(ts) ensures x in ids {
      var i :| 0 <= i < |ts| && ts[i].id == x;
      assert ids[i] == x;
    }
    assert ListedIds(ts) == set x | x in ids;
  }

  lemma FirstMessagesCount(ts: seq<ThreadData>)
    requires forall i | 0 <= i < |ts| :: ts[i].history.Ok? && ts[i].history.value != []
    requires forall i, j | 0 <= i < |ts| && 0 <= j < |ts| ::
      ts[i].history.value[0] == ts[j].history.value[0] ==> i == j
    ensures |FirstMessages(ts)| == |ts|
  {
    var firsts := seq(|ts|, i requires 0 <= i < |ts| => ts[i].history.value[0]);
    DistinctCount(firsts);
    forall x | x in firsts ensures x in FirstMessages(ts) {
      var i :| 0 <= i < |firsts| && firsts[i] == x;
      assert ts[i].history.value[0] == x;
    }
    forall x | x in FirstMessages(ts) ensures x in firsts {
      var i :| 0 <= i < |ts| && ts[i].history.Ok? && |ts[i].history.value| > 0 && ts[i].history.value[0] == x;
      assert firsts[i] == x;
    }
    assert FirstMessages(ts) == set x | x in firsts;
  }

  /** With N listed threads of distinct ids, each having a first message and
      no two sharing one, the store holds exactly N threads and N messages. */
  lemma StoreSizes(lookup: Result<Option<Channel>, string>)
    requires FetchThreads(lookup).Ok?
    requires DistinctIds(ListingOf(lookup))
    requires forall i | 0 <= i < |ListingOf(lookup)| :: ListingOf(lookup)[i].history.value != []
    requires forall i, j | 0 <= i < |ListingOf(lookup)| && 0 <= j < |ListingOf(lookup)| ::
      ListingOf(lookup)[i].history.value[0] == ListingOf(lookup)[j].history.value[0] ==> i == j
    ensures |FetchThreads(lookup).value.threads| == |ListingOf(lookup)|
    ensures |FetchThreads(lookup).value.messages| == |ListingOf(lookup)|
  {
    FetchThreadsContents(lookup);
    ListedIdsCount(ListingOf(lookup));
    FirstMessagesCount(ListingOf(lookup));
  }

  lemma AllFetchedSwap(x: seq<ThreadData>, a: ThreadData, b: ThreadData, y: seq<ThreadData>)
    ensures AllFetched(x + [a, b] + y) <==> AllFetched(x + [b, a] + y)
  {
    var l1, l2 := x + [a, b] + y, x + [b, a] + y;
    var n := |x|;
    if AllFetched(l1) {
      forall i | 0 <= i < |l2| ensures l2[i].history.Ok? {
        if i == n { assert l2[i] == l1[n + 1]; }
        else if i == n + 1 { assert l2[i] == l1[n]; }
        else { assert l2[i] == l1[i]; }
      }
    }
    if AllFetched(l2) {
      forall i | 0 <= i < |l1| ensures l1[i].history.Ok? {
        if i == n { assert l1[i] == l2[n + 1]; }
        else if i == n + 1 { assert l1[i] == l2[n]; }
        else { assert l1[i] == l2[i]; }
      }
    }
  }

  /** Exchanging two neighbouring threads of a listing exchanges their pages
      and keeps every other page where it was. */
  lemma FetchPagesSwap(x: seq<ThreadData>, a: ThreadData, b: ThreadData, y: seq<ThreadData>)
    ensures FetchPages(x + [a, b] + y).Ok? <==> FetchPages(x + [b, a] + y).Ok?
    ensures FetchPages(x + [a, b] + y).Ok? ==>
      var fs1, fs2, n := FetchPages(x + [a, b] + y).value, FetchPages(x + [b, a] + y).value, |x|;
      fs2 == fs1[..n] + [fs1[n + 1], fs1[n]] + fs1[n + 2..]
  {
    var l1, l2 := x + [a, b] + y, x + [b, a] + y;
    var n := |x|;
    AllFetchedSwap(x, a, b, y);
    if FetchPages(l1).Ok? {
      var fs1, fs2 := FetchPages(l1).value, FetchPages(l2).value;
      var swapped := fs1[..n] + [fs1[n + 1], fs1[n]] + fs1[n + 2..];
      assert |fs2| == |swapped|;
      forall i | 0 <= i < |fs2| ensures fs2[i] == swapped[i] {
        if i == n {
          assert l2[i] == l1[n + 1];
        } else if i == n + 1 {
          assert l2[i] == l1[n];
        } else {
          assert l2[i] == l1[i];
        }
      }
    }
  }

  /** The outcome of the concurrent per-thread fetches does not depend on the
      order in which they complete: exchanging two neighbouring threads (two
      distinct threads whose first messages differ) yields the same store, and
      the sweep fails for one order exactly when it fails for the other. */
  lemma FetchOrderIrrelevant(kind: ChannelKind, x: seq<ThreadData>, a: ThreadData, b: ThreadData, y: seq<ThreadData>)
    requires a.id != b.id
    requires a.history.Ok? && b.history.Ok? && a.history.value != [] && b.history.value != [] ==>
      a.history.value[0] != b.history.value[0]
    ensures FetchThreads(Ok(Some(Channel(kind, Ok(x + [a, b] + y))))).Ok? <==>
            FetchThreads(Ok(Some(Channel(kind, Ok(x + [b, a] + y))))).Ok?
    ensures FetchThreads(Ok(Some(Channel(kind, Ok(x + [a, b] + y))))).Ok? ==>
            FetchThreads(Ok(Some(Channel(kind, Ok(x + [a, b] + y))))) ==
            FetchThreads(Ok(Some(Channel(kind, Ok(x + [b, a] + y)))))
  {
    var l1, l2 := x + [a, b] + y, x + [b, a] + y;
    var n := |x|;
    FetchPagesSwap(x, a, b, y);
    if kind == GuildForum && FetchPages(l1).Ok? {
      var fs1 := FetchPages(l1).value;
      FetchedPages(l1, n);
      FetchedPages(l1, n + 1);
      assert fs1 == fs1[..n] + [fs1[n], fs1[n + 1]] + fs1[n + 2..];
      SweepSwap(Empty, fs1[..n], fs1[n], fs1[n + 1], fs1[n + 2..]);
    }
  }
}

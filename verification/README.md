# smart-vote reaction gatekeeper, modelled in Dafny

smart-vote is a Discord bot. In one forum channel it polices the reactions on
the first message of every thread. A reaction on a tracked first message is
kept when it meets both of these conditions:

- it uses the configured custom emoji `REACT_ID`;
- the reacting member joined the guild at least 30 days ago.

Any other reaction on a tracked message is removed, with two exceptions. If
the member fetch throws, the handler stops before removing anything (see
below). If the removal call fails, the reaction stays. Reactions on any other
message are ignored.

The model covers the logic of `main.ts`:

- `wrappers.dfy` (`Wrappers`): `Option` for the nullable values and `Result`
  for awaited platform calls (`Ok` when the promise resolves, `Err` when it
  rejects).
- `safe_call.dfy` (`SafeCall`): `trySafe`. It is a total function from the
  callback's outcome to `Value(v)` or the sentinel `false`. Its result type has
  no error case.
- `eligibility_store.dfy` (`EligibilityStore`): the two collections
  `CACHED_THREADS` and `CACHED_MESSAGES`, and the startup sweep
  `fetchThreads`.
  - Everything the sweep fetches is an input: the channel lookup, the thread
    listing, and each thread's message history, oldest first.
  - The per-thread callbacks of `Promise.all` run as a sequential fold.
    `SweepSwap` and `FetchOrderIrrelevant` show that this order does not change
    the result.
- `gatekeeper.dfy` (`Gatekeeper`): `isValidReaction` and the
  `messageReactionAdd` handler, as pure functions of their inputs:
  - the store;
  - the event (message id and emoji id; a unicode emoji has no id);
  - `REACT_ID`;
  - the outcome of the member lookup;
  - `now` in milliseconds;
  - the outcome of the removal call.

  Besides its decision (`Drop`, `Accept`, `Reject` or `Abort`), the handler
  returns the platform calls it issues, in order. This lets the contracts state
  that nothing is fetched before the emoji check, and that exactly one removal
  happens on `Reject` and on no other decision.

The handler is a function, so the same event against the same store, member
data and time always gets the same decision.

Only the removal (main.ts:41) goes through `trySafe`. The member fetch at
main.ts:92 is unguarded, so a throwing fetch rejects the handler's promise and
nothing is removed. In the model, the lookup outcome `Threw` gives the
decision `Abort`, with no removal.

Timestamps are JavaScript numbers in the source. Every value involved is an
integer number of milliseconds far below 2^53, so the comparison at
main.ts:99 is exact. The model uses unbounded integers.

## Model

| member | source | states |
|---|---|---|
| SafeCall.TrySafe | main.ts:106-113 | the guard yields the callback's own value when the callback succeeds, and the sentinel `false` when it fails; the result type has no error case, so a failure never propagates |
| SafeCall.TrySafeForgetsError | main.ts:109-112 | two failures with different errors give the same result, the sentinel `false`: the error is only logged |
| EligibilityStore.OldestFirst | main.ts:67-71 | the per-thread message fetch returns a prefix of the oldest-first history whose length is the smaller of `limit` and the history length |
| EligibilityStore.FetchPages | main.ts:63-77 | the join of the per-thread fetches succeeds exactly when every thread's fetch resolves; it then holds one page per listed thread, in listing order, with that thread's id |
| EligibilityStore.RegisterMessages | main.ts:73-75 | the inner loop leaves the thread map alone and merges one entry per fetched message into the message map, filed under the message id and marked with the thread; other entries are unchanged |
| EligibilityStore.RegisterThread | main.ts:64-76 | one per-thread callback adds the thread under its id and merges its page's messages, and changes nothing else |
| EligibilityStore.Sweep | main.ts:63-77 | after the sweep, the thread keys are the earlier keys plus every listed thread id, and the message keys are the earlier keys plus every fetched message id |
| EligibilityStore.FetchThreads | main.ts:54-80 | a missing or non-forum channel fails with `NotForum`, before any fetch; the sweep succeeds exactly when the channel is a forum, its listing resolves and every thread's message fetch resolves |
| EligibilityStore.SweepProvenance | main.ts:65-75 | the sweep keeps the store well formed: entries are filed under their own ids and every message belongs to a tracked thread; each written message is filed under a thread whose page held it, and unwritten entries are unchanged |
| EligibilityStore.SweepAppend | main.ts:63-77 | sweeping a concatenated listing is the same as sweeping its two parts one after the other |
| EligibilityStore.RegisterCommute | main.ts:64-76 | the callbacks of two distinct threads whose pages share no message give the same store in either order |
| EligibilityStore.SweepSwap | main.ts:63-77 | exchanging two neighbouring threads in the sweep (distinct ids, disjoint pages) leaves the final store unchanged |
| EligibilityStore.FetchOrderIrrelevant | main.ts:63-77 | at the level of `fetchThreads`, exchanging two neighbouring listed threads (distinct ids, different first messages) changes neither whether the sweep succeeds nor the store it builds |
| EligibilityStore.OldestFirstSingle | main.ts:67-71 | with `limit: 1` a thread's page is empty or holds exactly its first message |
| EligibilityStore.FetchThreadsContents | main.ts:61-77 | after a successful sweep, the thread keys are exactly the listed thread ids and the message keys are exactly the first messages of the threads that have one; the store is well formed |
| EligibilityStore.AtMostOneMessagePerThread | main.ts:65-75 | with distinct thread ids, two tracked messages filed under the same thread are the same message |
| EligibilityStore.SilentThreadTracked | main.ts:65-75 | a thread with no messages is tracked, but no message is filed under it |
| EligibilityStore.StoreSizes | main.ts:61-79 | N listed threads with distinct ids, each with its own first message, give exactly N thread entries and N message entries |
| EligibilityStore.FetchPagesSwap | main.ts:63-77 | exchanging two neighbouring listed threads exchanges their pages, keeps all others in place, and does not change whether the join succeeds |
| Gatekeeper.IsValidReaction | main.ts:82-104 | validity is true exactly for the configured emoji from a member with a known join time and at least 30 days of tenure; the promise fails exactly when the emoji matches and the fetch throws; the calls issued are exactly one member fetch when the emoji matches and the message has a guild, and none otherwise; no removal is issued here |
| Gatekeeper.HandleReaction | main.ts:30-44 | `Drop` exactly on untracked messages, with no call at all; `Accept` exactly when the reference condition `Admitted` holds; `Abort` exactly when a matching-emoji member fetch throws; the calls are exactly one member fetch (only after both gates pass and only when the message has a guild) followed by one removal (only on `Reject`), and nothing else; the guard runs exactly on `Reject` and returns `false` exactly when the removal fails |
| Gatekeeper.IneligibleIgnored | main.ts:32-35 | a reaction on an untracked message is dropped with no call, whatever its emoji, the member data, the time or the removal outcome |
| Gatekeeper.WrongEmojiRemovedUnfetched | main.ts:86-89 | on a tracked message, a different or unicode emoji gives `Reject` with a single removal and no member fetch, for any member data and time |
| Gatekeeper.UnknownMemberRemoved | main.ts:92-96 | with the right emoji, no guild, no member or no join time gives `Reject`; the member fetch is skipped only when there is no guild |
| Gatekeeper.ThrowingFetchAborts | main.ts:37-41 | with the right emoji, a throwing member fetch ends the handler after the fetch: `Abort`, no removal, no guard |
| Gatekeeper.TenureRule | main.ts:98-103 | with the right emoji and join time `j`, the decision is `Reject` iff `j > now - 2592000000`, and `Accept` otherwise |
| Gatekeeper.TenureBoundary | main.ts:99-103 | exactly 30 days of tenure is accepted; one millisecond less is rejected |
| Gatekeeper.AcceptMonotone | main.ts:99 | a reaction kept at `now` would also be kept at any later time, and for a member who joined earlier |
| Gatekeeper.RemovalFailureAbsorbed | main.ts:40-42 | a failed removal gives the same decision and calls as a successful one, and the guard returns the sentinel `false` |

## Left out

- The discord.js client, its intents, event subscription and `login`
  (main.ts:22-30, 46-48). These are a foreign library and I/O. Each event is an
  independent call of `HandleReaction`.
- Environment loading (main.ts:1, 15-17). `REACT_ID` is a parameter. A missing
  variable is not modelled.
- Network fetches. Their results are inputs: `Result` for
  `channels.fetch`, `threads.fetch` and `messages.fetch`, `MemberLookup` for
  `members.fetch`, and a `Result` for `reaction.remove`.
- The oldest-first ordering of a thread's history. The model assumes that
  `after: '0'` with `limit: 1` returns the thread's earliest message. Whether
  that is the user's first post or a system message is platform behaviour.
- Concurrency of `Promise.all` and interleaving of events. The sweep is a
  sequential fold; neighbouring-thread swaps are shown not to matter.
- The store left behind by a failed sweep. The error reaches the top-level
  `await` and the process stops, so the model returns an error and no store.
- What happens to the process when the handler's promise rejects (`Abort`).
  That depends on the runtime's unhandled-rejection policy.
- `Date.now()`, which is the `now` parameter, and an invalid `joinedAt` date
  (NaN compares false and would be accepted). The platform does not produce
  the latter.
- Console logging (main.ts:33, 48, 79, 110).
- Channel kinds beyond a representative enumeration. Only `GuildForum`
  matters.
- Keeping the store up to date after startup. The code never does this, so
  neither does the model.
- EligibilityStore.FetchOrderIrrelevant: when the sweep fails, the two orders
  are only shown to both fail, not to fail with the same error. `Promise.all`
  reports whichever rejection comes first in time.
- EligibilityStore.StoreSizes: assumes distinct first messages across threads.
  Platform message ids are unique; the code does not check this.
- SafeCall.TrySafe: the tagged `Guarded<T>` tells a callback that resolved to
  `false` apart from a failure. The source's untagged `T | false` cannot.
  At the only call site (main.ts:41), the removal resolves to a reaction
  object and never to `false`, so the behaviour is the same there.

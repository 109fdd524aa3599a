/** The reaction gatekeeper: the `messageReactionAdd` handler (main.ts:30-44)
    and the policy `isValidReaction` it awaits (main.ts:82-104).

    Each event is handled by a pure function. The data the handler would
    fetch is passed in: the outcome of the member lookup, the current time
    `now` in milliseconds since the epoch (`Date.now()`), and the outcome of
    the removal call. Besides its decision, the handler reports the platform
    calls it issues, in order, so that "no member fetch", "exactly one removal"
    and "nothing at all" can be stated about every path.
 */
module Gatekeeper {
  import opened Wrappers
  import opened SafeCall
  import opened EligibilityStore

  type EmojiId = string

  /** The minimum tenure, 30 days in milliseconds (main.ts:99). */
  const ThirtyDaysMs: int := 30 * 24 * 60 * 60 * 1000

  /** A reaction-add event: the message reacted to, and the emoji's id, which
      is `None` for a unicode emoji (discord reports `null`). */
  datatype ReactionEvent = ReactionEvent(message: MessageId, emoji: Option<EmojiId>)

  /** The outcome of `reaction.message.guild?.members.fetch(user.id)`:
      the message has no guild (no fetch is issued), the fetch yields no
      member, it yields a member whose join time may be unknown, or it
      rejects. Join times are milliseconds since the epoch. */
  datatype MemberLookup = NoGuild | NoMember | Member(joinedAt: Option<int>) | Threw

  /** The platform calls issued while handling one event. */
  datatype Call = FetchMember | RemoveReaction

  /** How the promise of `isValidReaction` settles: `true`, `false`, or
      rejected because the member fetch threw. */
  datatype Validity = Valid | Invalid | Failed

  datatype Validation = Validation(validity: Validity, calls: seq<Call>)

  /** What becomes of one event: ignored (ineligible message), kept, removed,
      or abandoned because the handler's promise rejected. */
  datatype Decision = Drop | Accept | Reject | Abort

  /** One handled event: its decision, the calls issued, and, when a removal
      was attempted, what the guard around it returned. */
  datatype Run = Run(decision: Decision, calls: seq<Call>, guarded: Option<Guarded<()>>)

  /** The tenure rule stated as a minimum age: at least 30 days since joining
      (the reverse of the rejection test at main.ts:98-99). */
  predicate LongEnough(joinedAt: int, now: int) {
    now - joinedAt >= ThirtyDaysMs
  }

  /** Reference statement of when a reaction stays: it is on a tracked message,
      uses the configured emoji, and comes from a member with a known join time
      and enough tenure. */
  ghost predicate Admitted(store: Store, ev: ReactionEvent, reactId: EmojiId, lookup: MemberLookup, now: int) {
    && IsEligible(store, ev.message)
    && ev.emoji == Some(reactId)
    && lookup.Member? && lookup.joinedAt.Some?
    && LongEnough(lookup.joinedAt.value, now)
  }

  /** `isValidReaction`: the emoji is checked first (main.ts:87), then the
      member is fetched (main.ts:92; no fetch without a guild), then the
      join time must be known (main.ts:94) and not later than 30 days before
      `now` (main.ts:99). */
  function IsValidReaction(emoji: Option<EmojiId>, reactId: EmojiId, lookup: MemberLookup, now: int): (v: Validation)
    ensures v.validity == Valid <==>
      emoji == Some(reactId) && lookup.Member? && lookup.joinedAt.Some? && LongEnough(lookup.joinedAt.value, now)
    ensures v.validity == Failed <==> emoji == Some(reactId) && lookup.Threw?
    ensures v.calls == if emoji == Some(reactId) && !lookup.NoGuild? then [FetchMember] else []
  {
    if emoji != Some(reactId) then Validation(Invalid, [])
    else
      match lookup
      case NoGuild => Validation(Invalid, [])
      case Threw => Validation(Failed, [FetchMember])
      case NoMember => Validation(Invalid, [FetchMember])
      case Member(None) => Validation(Invalid, [FetchMember])
      case Member(Some(joinedAt)) =>
        if joinedAt > now - ThirtyDaysMs then Validation(Invalid, [FetchMember])
        else Validation(Valid, [FetchMember])
  }

  /** The `messageReactionAdd` handler: an ineligible message is ignored
      (main.ts:32-35); otherwise the policy decides, and a reaction that should
      not be kept is removed through `trySafe` (main.ts:37-43). A rejected
      policy promise ends the handler before any removal. */
  function HandleReaction(store: Store, ev: ReactionEvent, reactId: EmojiId, lookup: MemberLookup,
                          now: int, removal: Result<(), string>): (run: Run)
    ensures run.decision == Drop <==> !IsEligible(store, ev.message)
    ensures run.decision == Drop ==> run.calls == [] && run.guarded.None?
    ensures run.decision == Accept <==> Admitted(store, ev, reactId, lookup, now)
    ensures run.decision == Abort <==> IsEligible(store, ev.message) && ev.emoji == Some(reactId) && lookup.Threw?
    ensures multiset(run.calls)[RemoveReaction] == if run.decision == Reject then 1 else 0
    ensures run.decision == Reject ==> run.calls[|run.calls| - 1] == RemoveReaction
    ensures FetchMember in run.calls <==>
      IsEligible(store, ev.message) && ev.emoji == Some(reactId) && !lookup.NoGuild?
    ensures run.calls ==
      (if FetchMember in run.calls then [FetchMember] else []) +
      (if run.decision == Reject then [RemoveReaction] else [])
    ensures run.guarded.Some? <==> run.decision == Reject
    ensures run.guarded.Some? ==> (run.guarded.value.SentinelFalse? <==> removal.Err?)
  {
    if !IsEligible(store, ev.message) then Run(Drop, [], None)
    else
      var v := IsValidReaction(ev.emoji, reactId, lookup, now);
      match v.validity
      case Failed => Run(Abort, v.calls, None)
      case Valid => Run(Accept, v.calls, None)
      case Invalid => Run(Reject, v.calls + [RemoveReaction], Some(TrySafe(removal)))
  }

  // ---------------------------------------------------------------------------
  // Order of the checks

  /** A reaction on an untracked message is ignored whatever its emoji, the
      member data, the time or the removal outcome: no platform call at all. */
  lemma IneligibleIgnored(store: Store, ev: ReactionEvent, reactId: EmojiId, lookup: MemberLookup,
                          now: int, removal: Result<(), string>)
    requires !IsEligible(store, ev.message)
    ensures HandleReaction(store, ev, reactId, lookup, now, removal) == Run(Drop, [], None)
  {
  }

  /** On a tracked message, a reaction with another emoji, or a unicode emoji,
      is removed before any member is fetched; member data and time play no
      part. */
  lemma WrongEmojiRemovedUnfetched(store: Store, ev: ReactionEvent, reactId: EmojiId, lookup: MemberLookup,
                                   now: int, removal: Result<(), string>)
    requires IsEligible(store, ev.message)
    requires ev.emoji != Some(reactId)
    ensures HandleReaction(store, ev, reactId, lookup, now, removal) ==
      Run(Reject, [RemoveReaction], Some(TrySafe(removal)))
  {
  }

  /** With the right emoji, a message without a guild, an absent member or an
      unknown join time leads to removal; only the guild case skips the fetch. */
  lemma UnknownMemberRemoved(store: Store, ev: ReactionEvent, reactId: EmojiId, lookup: MemberLookup,
                             now: int, removal: Result<(), string>)
    requires IsEligible(store, ev.message) && ev.emoji == Some(reactId)
    requires lookup == NoGuild || lookup == NoMember || lookup == Member(None)
    ensures HandleReaction(store, ev, reactId, lookup, now, removal) ==
      Run(Reject, (if lookup.NoGuild? then [] else [FetchMember]) + [RemoveReaction], Some(TrySafe(removal)))
  {
  }

  /** A member fetch that throws is not guarded: the handler stops after the
      fetch and nothing is removed. */
  lemma ThrowingFetchAborts(store: Store, ev: ReactionEvent, reactId: EmojiId,
                            now: int, removal: Result<(), string>)
    requires IsEligible(store, ev.message) && ev.emoji == Some(reactId)
    ensures HandleReaction(store, ev, reactId, Threw, now, removal) == Run(Abort, [FetchMember], None)
  {
  }

  // ---------------------------------------------------------------------------
  // The tenure rule

  /** With the right emoji and a known join time `j`, the reaction is removed
      exactly when `j > now - 2592000000`, and kept otherwise. */
  lemma TenureRule(store: Store, ev: ReactionEvent, reactId: EmojiId, j: int,
                   now: int, removal: Result<(), string>)
    requires IsEligible(store, ev.message) && ev.emoji == Some(reactId)
    ensures HandleReaction(store, ev, reactId, Member(Some(j)), now, removal).decision == Reject <==> j > now - 2592000000
    ensures HandleReaction(store, ev, reactId, Member(Some(j)), now, removal).decision == Accept <==> j <= now - 2592000000
  {
  }

  /** The boundary: exactly 30 days of tenure is enough; one millisecond less
      is not. */
  lemma TenureBoundary(store: Store, ev: ReactionEvent, reactId: EmojiId,
                       now: int, removal: Result<(), string>)
    requires IsEligible(store, ev.message) && ev.emoji == Some(reactId)
    ensures HandleReaction(store, ev, reactId, Member(Some(now - 2592000000)), now, removal).decision == Accept
    ensures HandleReaction(store, ev, reactId, Member(Some(now - 2592000000 + 1)), now, removal).decision == Reject
  {
  }

  /** A reaction kept at `now` would be kept at any later time, and for any
      member who joined earlier. */
  lemma AcceptMonotone(store: Store, ev: ReactionEvent, reactId: EmojiId, j: int, j': int,
                       now: int, now': int, removal: Result<(), string>)
    requires HandleReaction(store, ev, reactId, Member(Some(j)), now, removal).decision == Accept
    requires now <= now' && j' <= j
    ensures HandleReaction(store, ev, reactId, Member(Some(j')), now', removal).decision == Accept
  {
  }

  // ---------------------------------------------------------------------------
  // The removal guard

  /** Whether the removal succeeds or fails changes nothing but the guard's
      own result: the decision and the calls are the same, and the handler
      still finishes. */
  lemma RemovalFailureAbsorbed(store: Store, ev: ReactionEvent, reactId: EmojiId, lookup: MemberLookup,
                               now: int, e: string)
    ensures HandleReaction(store, ev, reactId, lookup, now, Err(e)).decision ==
            HandleReaction(store, ev, reactId, lookup, now, Ok(())).decision
    ensures HandleReaction(store, ev, reactId, lookup, now, Err(e)).calls ==
            HandleReaction(store, ev, reactId, lookup, now, Ok(())).calls
    ensures HandleReaction(store, ev, reactId, lookup, now, Err(e)).decision == Reject ==>
            HandleReaction(store, ev, reactId, lookup, now, Err(e)).guarded == Some(SentinelFalse)
  {
  }
}

/**
Pending backup imports and resets: one entry a chat, confirmed or cancelled by a one-time token within ten
minutes. Imports and resets are two tables of the same kind. Times are in milliseconds.
*/
module PendingTokens {
  import opened Options

  const TTL: int := 10 * 60 * 1000

  datatype Pending<Payload> = Pending(payload: Payload, token: string, expiresAt: int)

  /** Confirming and cancelling both consume. */
  datatype Event<Chat, Payload> =
    | Store(chat: Chat, payload: Payload, token: string, now: int)
    | Consume(chat: Chat, token: string, now: int)
    | Cleanup(now: int)

  // ----- The operations as functions of the table -----

  predicate Redeems<Payload>(p: Pending<Payload>, token: string, now: int) {
    now < p.expiresAt && p.token == token
  }

  function ConsumeFrom<Chat, Payload>(m: map<Chat, Pending<Payload>>, chat: Chat, token: string, now: int)
    : (map<Chat, Pending<Payload>>, Option<Payload>)
  {
    if chat !in m then (m, None)
    else if now >= m[chat].expiresAt then (m - {chat}, None)
    else if m[chat].token != token then (m, None)
    else (m - {chat}, Some(m[chat].payload))
  }

  function Unexpired<Chat, Payload>(m: map<Chat, Pending<Payload>>, now: int): map<Chat, Pending<Payload>> {
    map c | c in m && now < m[c].expiresAt :: m[c]
  }

  function Step<Chat, Payload>(m: map<Chat, Pending<Payload>>, e: Event<Chat, Payload>): map<Chat, Pending<Payload>> {
    match e
    case Store(chat, payload, token, now) => m[chat := Pending(payload, token, now + TTL)]
    case Consume(chat, token, now) => ConsumeFrom(m, chat, token, now).0
    case Cleanup(now) => Unexpired(m, now)
  }

  /** pendingImports or pendingResets, whose functions run under one mutex. */
  class PendingTable<Chat(==), Payload> {
    var entries: map<Chat, Pending<Payload>>

    constructor ()
      ensures entries == map[]
    {
      entries := map[];
    }

    method StorePending(chat: Chat, payload: Payload, token: string, now: int)
      modifies this
      ensures entries == Step(old(entries), Store(chat, payload, token, now))
    {
      entries := entries[chat := Pending(payload, token, now + TTL)];
    }

    method ConsumePending(chat: Chat, token: string, now: int) returns (payload: Option<Payload>)
      modifies this
      ensures (entries, payload) == ConsumeFrom(old(entries), chat, token, now)
    {
      if chat !in entries {
        return None;
      }
      var pending := entries[chat];
      if !(now < pending.expiresAt) {
        entries := entries - {chat};
        return None;
      }
      if pending.token != token {
        return None;
      }
      entries := entries - {chat};
      return Some(pending.payload);
    }

    method DiscardPending(chat: Chat, token: string, now: int) returns (ok: bool)
      modifies this
      ensures entries == ConsumeFrom(old(entries), chat, token, now).0
      ensures ok <==> ConsumeFrom(old(entries), chat, token, now).1.Some?
    {
      var payload := ConsumePending(chat, token, now);
      ok := payload.Some?;
    }

    /** One of the two loops of cleanupExpiredPending. */
    method CleanupExpired(now: int)
      modifies this
      ensures entries == Step(old(entries), Cleanup(now))
    {
      ghost var before := entries;
      var todo := entries.Keys;
      while todo != {}
        invariant todo <= before.Keys
        invariant forall c :: c in entries <==> c in before && (c in todo || now < before[c].expiresAt)
        invariant forall c :: c in entries ==> entries[c] == before[c]
        decreases |todo|
      {
        var k :| k in todo;
        todo := todo - {k};
        if !(now < entries[k].expiresAt) {
          entries := entries - {k};
        }
      }
      assert entries == Unexpired(before, now);
    }
  }

  /** cleanupExpiredPending. */
  method CleanupExpiredPending<Chat(==), A, B>(imports: PendingTable<Chat, A>, resets: PendingTable<Chat, B>, now: int)
    requires (imports as object) != (resets as object)
    modifies imports, resets
    ensures imports.entries == Unexpired(old(imports.entries), now)
    ensures resets.entries == Unexpired(old(resets.entries), now)
  {
    imports.CleanupExpired(now);
    resets.CleanupExpired(now);
  }

  // ----- Runs -----

  function After<Chat, Payload>(evs: seq<Event<Chat, Payload>>): map<Chat, Pending<Payload>> {
    if evs == [] then map[] else Step(After(evs[..|evs| - 1]), evs[|evs| - 1])
  }

  lemma AfterNext<Chat, Payload>(evs: seq<Event<Chat, Payload>>, n: nat)
    requires n < |evs|
    ensures After(evs[..n + 1]) == Step(After(evs[..n]), evs[n])
  {
    assert evs[..n + 1][..n] == evs[..n];
  }

  ghost predicate Monotone<Chat, Payload>(evs: seq<Event<Chat, Payload>>) {
    forall i, j :: 0 <= i < j < |evs| ==> evs[i].now <= evs[j].now
  }

  /** The n-th event redeems a token, and for what. */
  function Redeemed<Chat(==), Payload>(evs: seq<Event<Chat, Payload>>, n: nat): Option<Payload>
    requires n < |evs| && evs[n].Consume?
  {
    ConsumeFrom(After(evs[..n]), evs[n].chat, evs[n].token, evs[n].now).1
  }

  predicate Touches<Chat(==), Payload>(e: Event<Chat, Payload>, chat: Chat, token: string) {
    (e.Store? && e.chat == chat) || (e.Consume? && e.chat == chat && e.token == token)
  }

  /** The i-th event is the chat's newest store before n, and nobody has used its token since. */
  ghost predicate Outstanding<Chat, Payload>(evs: seq<Event<Chat, Payload>>, i: nat, n: nat, chat: Chat) {
    && i < n <= |evs| && evs[i].Store? && evs[i].chat == chat
    && forall k :: i < k < n ==> !Touches(evs[k], chat, evs[i].token)
  }

  /** Whatever a table holds was stored last for its chat, and its token has not been used. */
  lemma {:induction false} Origin<Chat, Payload>(evs: seq<Event<Chat, Payload>>, n: nat, chat: Chat) returns (i: nat)
    requires n <= |evs| && chat in After(evs[..n])
    ensures Outstanding(evs, i, n, chat)
    ensures After(evs[..n])[chat] == Pending(evs[i].payload, evs[i].token, evs[i].now + TTL)
    decreases n
  {
    AfterNext(evs, n - 1);
    if evs[n - 1].Store? && evs[n - 1].chat == chat {
      i := n - 1;
    } else {
      i := Origin(evs, n - 1, chat);
    }
  }

  /** An outstanding entry stays until it expires. */
  lemma {:induction false} Stays<Chat, Payload>(evs: seq<Event<Chat, Payload>>, i: nat, n: nat, chat: Chat)
    requires Outstanding(evs, i, n, chat)
    requires forall k :: i < k < n ==> evs[k].now < evs[i].now + TTL
    ensures chat in After(evs[..n])
    ensures After(evs[..n])[chat] == Pending(evs[i].payload, evs[i].token, evs[i].now + TTL)
    decreases n
  {
    AfterNext(evs, n - 1);
    if i < n - 1 {
      Stays(evs, i, n - 1, chat);
      assert !Touches(evs[n - 1], chat, evs[i].token);
    }
  }

  /** The events that remove an expired entry: a cleanup, and a use of any token of its chat. */
  predicate Sweeps<Chat(==), Payload>(e: Event<Chat, Payload>, chat: Chat) {
    e.Cleanup? || (e.Consume? && e.chat == chat)
  }

  /** The i-th event is the chat's newest store, unused, and no sweep has come after its expiry. */
  ghost predicate OnRecord<Chat, Payload>(evs: seq<Event<Chat, Payload>>, i: nat, n: nat, chat: Chat) {
    && Outstanding(evs, i, n, chat)
    && forall k :: i < k < n && Sweeps(evs[k], chat) ==> evs[k].now < evs[i].now + TTL
  }

  lemma OnRecordStep<Chat, Payload>(evs: seq<Event<Chat, Payload>>, i: nat, n: nat, chat: Chat)
    requires i < n < |evs|
    ensures OnRecord(evs, i, n + 1, chat) <==>
              && OnRecord(evs, i, n, chat) && !Touches(evs[n], chat, evs[i].token)
              && (Sweeps(evs[n], chat) ==> evs[n].now < evs[i].now + TTL)
  {
  }

  lemma OnRecordStart<Chat, Payload>(evs: seq<Event<Chat, Payload>>, n: nat, chat: Chat)
    requires n < |evs| && evs[n].Store? && evs[n].chat == chat
    ensures OnRecord(evs, n, n + 1, chat)
  {
  }

  /** Whatever is on record is in the table, as it was stored. */
  lemma {:induction false} RecordIsStored<Chat, Payload>(evs: seq<Event<Chat, Payload>>, i: nat, n: nat, chat: Chat)
    requires n <= |evs| && OnRecord(evs, i, n, chat)
    ensures chat in After(evs[..n])
    ensures After(evs[..n])[chat] == Pending(evs[i].payload, evs[i].token, evs[i].now + TTL)
    decreases n
  {
    var k := n - 1;
    AfterNext(evs, k);
    if i < k {
      OnRecordStep(evs, i, k, chat);
      RecordIsStored(evs, i, k, chat);
    }
  }

  /** Whatever is in the table is on record. */
  lemma {:induction false} StoredIsOnRecord<Chat, Payload>(evs: seq<Event<Chat, Payload>>, n: nat, chat: Chat)
    returns (i: nat)
    requires n <= |evs| && chat in After(evs[..n])
    ensures OnRecord(evs, i, n, chat)
    ensures After(evs[..n])[chat] == Pending(evs[i].payload, evs[i].token, evs[i].now + TTL)
    decreases n
  {
    var k := n - 1;
    AfterNext(evs, k);
    if evs[k].Store? && evs[k].chat == chat {
      i := k;
      OnRecordStart(evs, k, chat);
    } else {
      i := StoredIsOnRecord(evs, k, chat);
      OnRecordStep(evs, i, k, chat);
    }
  }

  // ----- Main results -----

  /**
  After every run the table holds, for each chat, exactly its newest request if that is unused and no cleanup
  or attempt has come after its expiry; so a cleanup leaves nothing expired behind and removes nothing else.
  */
  lemma {:induction false} TableIsExact<Chat, Payload>(evs: seq<Event<Chat, Payload>>, chat: Chat, p: Pending<Payload>)
    ensures chat in After(evs) && After(evs)[chat] == p <==>
              exists i: nat :: OnRecord(evs, i, |evs|, chat)
                && p == Pending(evs[i].payload, evs[i].token, evs[i].now + TTL)
  {
    assert evs[..|evs|] == evs;
    if chat in After(evs) {
      var i := StoredIsOnRecord(evs, |evs|, chat);
    }
    if i: nat :| OnRecord(evs, i, |evs|, chat) && p == Pending(evs[i].payload, evs[i].token, evs[i].now + TTL) {
      RecordIsStored(evs, i, |evs|, chat);
    }
  }

  lemma CleanupLeavesNothingExpired<Chat, Payload>(evs: seq<Event<Chat, Payload>>, now: int)
    requires evs != [] && evs[|evs| - 1] == Cleanup(now)
    ensures forall chat :: chat in After(evs) ==> now < After(evs)[chat].expiresAt
    ensures forall chat :: chat in After(evs[..|evs| - 1]) && now < After(evs[..|evs| - 1])[chat].expiresAt ==>
              chat in After(evs) && After(evs)[chat] == After(evs[..|evs| - 1])[chat]
  {
  }

  /**
  In every run a confirmation or cancellation succeeds if and only if its token is that of the chat's newest
  request, less than ten minutes old and never used before; wrong tokens and cleanups make no difference.
  */
  lemma RedeemsExactlyTheNewest<Chat, Payload>(evs: seq<Event<Chat, Payload>>, n: nat)
    requires Monotone(evs) && n < |evs| && evs[n].Consume?
    ensures Redeemed(evs, n).Some? <==>
              exists i: nat :: Outstanding(evs, i, n, evs[n].chat)
                && evs[i].token == evs[n].token && evs[n].now < evs[i].now + TTL
  {
    var chat := evs[n].chat;
    if Redeemed(evs, n).Some? {
      var i := Origin(evs, n, chat);
    }
    if i: nat :| Outstanding(evs, i, n, chat) && evs[i].token == evs[n].token && evs[n].now < evs[i].now + TTL {
      Stays(evs, i, n, chat);
    }
  }

  /** What a success hands out is what that request stored. */
  lemma RedeemsWhatWasStored<Chat, Payload>(evs: seq<Event<Chat, Payload>>, n: nat) returns (i: nat)
    requires n < |evs| && evs[n].Consume? && Redeemed(evs, n).Some?
    ensures Outstanding(evs, i, n, evs[n].chat) && evs[i].token == evs[n].token
    ensures Redeemed(evs, n) == Some(evs[i].payload)
  {
    i := Origin(evs, n, evs[n].chat);
  }

  ghost predicate FreshTokens<Chat, Payload>(evs: seq<Event<Chat, Payload>>) {
    forall i, j :: 0 <= i < j < |evs| && evs[i].Store? && evs[j].Store? ==> evs[i].token != evs[j].token
  }

  lemma UsedUp<Chat, Payload>(evs: seq<Event<Chat, Payload>>, i: nat, n: nat, m: nat, chat: Chat)
    requires Outstanding(evs, i, n, chat) && n < m <= |evs|
    requires evs[n].Consume? && evs[n].chat == chat && evs[n].token == evs[i].token
    ensures !Outstanding(evs, i, m, chat)
  {
    assert Touches(evs[n], chat, evs[i].token);
  }

  /** A token succeeds at most once, across confirming and cancelling. */
  lemma TokenSucceedsOnce<Chat, Payload>(evs: seq<Event<Chat, Payload>>, n: nat, m: nat)
    requires FreshTokens(evs) && n < m < |evs| && evs[n].Consume? && evs[m].Consume?
    requires evs[n].token == evs[m].token && Redeemed(evs, n).Some?
    ensures Redeemed(evs, m).None?
  {
    var i := RedeemsWhatWasStored(evs, n);
    UsedUp(evs, i, n, m, evs[n].chat);
    if Redeemed(evs, m).Some? {
      var j := RedeemsWhatWasStored(evs, m);
    }
  }
}

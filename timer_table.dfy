/**
 The per-chat `timers` object of publicidad.js and the two places that touch
 it: each firing of `sendRandomMessage` stores the handle of the timer it sets,
 and the `disconnected` handler clears every stored timer. The runtime's own
 queue of live timers is kept beside it as `pending`, so that clearing and
 firing can be stated.
 */
module TimerTable {
  import opened Chats
  import opened Schedule

  /** A timer made by `setTimeout`: its handle, the chat whose chain it
      continues, and its delay. */
  datatype Timer = Timer(handle: nat, chatId: string, delayMs: nat)

  class Timers {
    /** The `timers` object: chat id to the last handle stored for it. */
    var timers: map<string, Timer>
    /** Timers the runtime still holds: neither fired nor cleared. */
    var pending: set<Timer>
    var nextHandle: nat

    ghost predicate Valid()
      reads this
    {
      && (forall k :: k in timers ==> timers[k].chatId == k && timers[k].handle < nextHandle)
      && (forall t :: t in pending ==> t.handle < nextHandle)
    }

    /** Each chat has at most one live chain: every pending timer is the one
        stored for its chat. */
    ghost predicate OneChainPerChat()
      reads this
    {
      forall t :: t in pending ==> t.chatId in timers && timers[t.chatId] == t
    }

    constructor ()
      ensures Valid() && OneChainPerChat()
      ensures timers == map[] && pending == {}
    {
      timers := map[];
      pending := {};
      nextHandle := 0;
    }

    /** `timers[chatId] = setTimeout(..., delayMs)`: a new timer replaces the
        stored entry for that chat only; a timer it replaces is not cleared. */
    method SetTimer(chatId: string, delayMs: nat) returns (t: Timer)
      requires Valid()
      modifies this
      ensures Valid()
      ensures t == Timer(old(nextHandle), chatId, delayMs) && t !in old(pending)
      ensures timers == old(timers)[chatId := t]
      ensures pending == old(pending) + {t}
      ensures nextHandle == old(nextHandle) + 1
    {
      t := Timer(nextHandle, chatId, delayMs);
      timers := timers[chatId := t];
      pending := pending + {t};
      nextHandle := nextHandle + 1;
    }

    /** One call of `sendRandomMessage(chatId)`, with the out-of-window delay
        corrected to target 05:00 (see `Schedule.OutOfWindowDelay`): it does
        what Step says and writes the `timers` entry of that chat at most once. */
    method SendRandomMessage(chatId: string, i: StepInput) returns (r: StepResult)
      requires Valid()
      modifies this
      ensures Valid()
      ensures r == Step(chatId, i)
      ensures r.next.Some? ==>
                && timers == old(timers)[chatId := Timer(old(nextHandle), chatId, r.next.value)]
                && pending == old(pending) + {Timer(old(nextHandle), chatId, r.next.value)}
                && nextHandle == old(nextHandle) + 1
      ensures r.next.None? ==>
                timers == old(timers) && pending == old(pending) && nextHandle == old(nextHandle)
      ensures (old(OneChainPerChat()) && (chatId in old(timers) ==> old(timers)[chatId] !in old(pending)))
                ==> OneChainPerChat()
    {
      r := Step(chatId, i);
      if r.next.Some? {
        var _ := SetTimer(chatId, r.next.value);
      }
    }

    /** A pending timer fires: the runtime drops it and runs the firing for its chat. */
    method Fire(t: Timer, i: StepInput) returns (r: StepResult)
      requires Valid() && t in pending
      modifies this
      ensures Valid()
      ensures r == Step(t.chatId, i)
      ensures r.next.Some? ==>
                && timers == old(timers)[t.chatId := Timer(old(nextHandle), t.chatId, r.next.value)]
                && pending == old(pending) - {t} + {Timer(old(nextHandle), t.chatId, r.next.value)}
      ensures r.next.None? ==> timers == old(timers) && pending == old(pending) - {t}
      ensures old(OneChainPerChat()) ==> OneChainPerChat()
    {
      pending := pending - {t};
      r := SendRandomMessage(t.chatId, i);
    }

    /** The `disconnected` handler: `clearTimeout` on every stored timer. The
        keys stay; a timer whose entry was overwritten earlier is not reached. */
    method Disconnect()
      requires Valid()
      modifies this
      ensures Valid()
      ensures timers == old(timers) && nextHandle == old(nextHandle)
      ensures pending == old(pending) - old(timers).Values
      ensures forall k :: k in timers ==> timers[k] !in pending
      ensures old(OneChainPerChat()) ==> pending == {}
    {
      var keys := timers.Keys;
      while keys != {}
        invariant keys <= timers.Keys
        invariant timers == old(timers) && nextHandle == old(nextHandle)
        invariant pending == old(pending) - (set k | k in timers.Keys - keys :: timers[k])
        decreases keys
      {
        var k :| k in keys;
        pending := pending - {timers[k]};
        keys := keys - {k};
      }
      assert (set k | k in timers.Keys :: timers[k]) == timers.Values;
    }
  }
}

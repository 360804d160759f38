/** ScheduledTaskService of the Spring backend (service/ScheduledTaskService.java): the
    daily removal of threads older than the configured number of days. The clock is a
    parameter; timestamps are seconds, and a `LocalDateTime` day, which has no zone,
    is always 86400 of them. */
module JavaScheduled {
  import opened JavaModel
  import opened JavaStore
  import opened JavaThreads

  const DaySeconds := 86400

  /** The ids `findByCreatedAtBefore(now.minusDays(days))` returns, and none at all when
      auto-delete is switched off by a day count of zero or less. */
  function Expired(created: map<int, nat>, now: int, days: int): (r: set<int>)
    ensures forall k :: k in r <==> days > 0 && k in created && created[k] < now - days * DaySeconds
  {
    if days <= 0 then {} else set k | k in created && created[k] < now - days * DaySeconds
  }

  /** A longer retention never removes more: what a larger day count deletes, a smaller
      positive one deletes too. */
  lemma ExpiredShrinks(created: map<int, nat>, now: int, days1: int, days2: int)
    requires 0 < days1 <= days2
    ensures Expired(created, now, days2) <= Expired(created, now, days1)
  {
    forall k | k in Expired(created, now, days2)
      ensures k in Expired(created, now, days1)
    {
      assert days1 * DaySeconds <= days2 * DaySeconds;
    }
  }

  /** The creation time of every stored thread. */
  function CreationTimes(f: Forum): (m: map<int, nat>)
    reads f, f.threads.Values
    ensures m.Keys == f.threads.Keys
    ensures forall k | k in m :: m[k] == f.threads[k].createdAt
  {
    map k | k in f.threads :: f.threads[k].createdAt
  }

  /** The service, with `autoDeleteDays` injected from the properties (default 90). */
  class ScheduledTaskService {
    const autoDeleteDays: int

    constructor (autoDeleteDays: int)
      ensures this.autoDeleteDays == autoDeleteDays
    {
      this.autoDeleteDays := autoDeleteDays;
    }

    /** deleteOldThreads: removes every thread created strictly before the cutoff, with
        its replies and subscriptions (the entity's cascades); with a day count of zero or
        less, or nothing old enough, the store is left as it was. */
    method DeleteOldThreads(f: Forum, now: int)
      requires f.Valid()
      modifies f`threads, f`replies, f`subscriptions
      ensures f.Valid()
      ensures var gone := Expired(old(CreationTimes(f)), now, autoDeleteDays);
        f.threads == old(f.threads) - gone &&
        f.replies == Outside(old(f.replies), ReplyThread, gone) &&
        f.subscriptions == Outside(old(f.subscriptions), SubscriptionThread, gone)
      ensures autoDeleteDays <= 0 ==>
        f.threads == old(f.threads) && f.replies == old(f.replies) && f.subscriptions == old(f.subscriptions)
      ensures forall k | k in f.threads :: autoDeleteDays <= 0 || f.threads[k].createdAt >= now - autoDeleteDays * DaySeconds
    {
      if autoDeleteDays <= 0 {
        assert Outside(f.replies, ReplyThread, {}) == f.replies;
        assert Outside(f.subscriptions, SubscriptionThread, {}) == f.subscriptions;
        return;
      }
      var gone := Expired(CreationTimes(f), now, autoDeleteDays);
      if gone == {} {
        assert Outside(f.replies, ReplyThread, {}) == f.replies;
        assert Outside(f.subscriptions, SubscriptionThread, {}) == f.subscriptions;
        return;
      }
      DropThreads(f, gone);
    }

    /** cleanOldNotifications: its body is still a placeholder that only logs, so the
        store is left exactly as it was. */
    method CleanOldNotifications(f: Forum)
      ensures unchanged(f)
    {
    }
  }
}

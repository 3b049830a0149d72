/** Hints and tokens spent in the retention file: at most once, across restarts and crashes. */
module DurableAdmission {
  import opened Bytes
  import opened Admission
  import opened RetentionMachine
  import opened RetentionSafety
  import opened RetentionDurability
  import opened RetentionExhausted

  /**
   * The insert that a presentable hint amounts to. Without a time of its own it is retained for good, and `wall` is
   * what the cache reads from the clock.
   */
  function HintInsert(k: Crypto, p: Presentation, id: nat, wall: uint64, io: Outcome): Event
    requires Presentable(k, p)
  {
    if p.now == 0 then InsertKey(id, SpentKey(k, p.cred), MAX_U64, wall, io)
    else InsertKey(id, SpentKey(k, p.cred), HintDeadline(p.cred.expiry, p.epochUntil).value, p.now, io)
  }

  /** The insert that an attempt to spend a token amounts to. */
  function TokenInsert(k: Crypto, a: Attempt, id: nat, io: Outcome): Event
    requires Spendable(k, a)
  {
    InsertKey(id, TokenKey(k, a.proof), a.proof.expiry + GRACE_SECONDS, a.now, io)
  }

  /**
   * The run goes on from an acknowledged insert that no crash can take back: the insert is durable, for one because it
   * leaves no rename that could be undone, or no crash of the run undoes one.
   */
  ghost predicate Lasting(s: State, before: seq<Event>, first: Event, between: seq<Event>) {
    && Initial(s) && ValidRun(s, before) && Acknowledges(StateAfter(s, before), first)
    && ValidRun(Execute(StateAfter(s, before), first), between)
    && (Durable(Execute(StateAfter(s, before), first), first.key, first.deadline)
        || (NoRevert(before) && NoRevert(between)))
  }

  /** Such an insert stays the only one of its key before its deadline. */
  lemma StaysSpent(s: State, before: seq<Event>, first: Event, between: seq<Event>, second: Event)
    requires Lasting(s, before, first, between)
    requires second.InsertKey? && Enabled(StateAfter(Execute(StateAfter(s, before), first), between), second)
    requires second.key == first.key && second.now < first.deadline
    ensures !Inserting(StateAfter(Execute(StateAfter(s, before), first), between), second).inserted
  {
    var t := Execute(StateAfter(s, before), first);
    if Durable(t, first.key, first.deadline) {
      DurableIff(s, before, first);
      assert !Readmits(t, between, second, first.key, first.deadline);
    } else {
      AtMostOnce(s, before, first, between, second);
    }
  }

  /** The server's state when the second presentation comes. */
  ghost function AtSecond(s: State, before: seq<Event>, first: Event, between: seq<Event>): State
    requires Lasting(s, before, first, between)
  {
    StateAfter(Execute(StateAfter(s, before), first), between)
  }

  /**
   * In every run of the server's cache file, with any number of processes, failures, crashes and restarts: a hint that
   * was admitted without a time is never admitted again, and one admitted with a time is not admitted again by a
   * presentation with a time that shows the same expiry.
   */
  lemma HintAdmittedOnce(k: Crypto, s: State, before: seq<Event>, p: Presentation, id: nat, wall: uint64, io: Outcome,
                         between: seq<Event>, q: Presentation, id2: nat, wall2: uint64, io2: Outcome)
    requires Presentable(k, p) && Presentable(k, q) && SpentKey(k, p.cred) == SpentKey(k, q.cred)
    requires Lasting(s, before, HintInsert(k, p, id, wall, io), between)
    requires Enabled(AtSecond(s, before, HintInsert(k, p, id, wall, io), between), HintInsert(k, q, id2, wall2, io2))
    requires p.now == 0 || (q.now != 0 && q.cred.expiry == p.cred.expiry)
    ensures !Inserting(AtSecond(s, before, HintInsert(k, p, id, wall, io), between),
                       HintInsert(k, q, id2, wall2, io2)).inserted
  {
    var first, second := HintInsert(k, p, id, wall, io), HintInsert(k, q, id2, wall2, io2);
    if second.now < first.deadline {
      StaysSpent(s, before, first, between, second);
    }
  }

  /** A token is spent at most once in every such run. */
  lemma TokenSpentOnce(k: Crypto, s: State, before: seq<Event>, a: Attempt, id: nat, io: Outcome,
                       between: seq<Event>, b: Attempt, id2: nat, io2: Outcome)
    requires Spendable(k, a) && Spendable(k, b) && a.proof == b.proof
    requires Lasting(s, before, TokenInsert(k, a, id, io), between)
    requires Enabled(AtSecond(s, before, TokenInsert(k, a, id, io), between), TokenInsert(k, b, id2, io2))
    ensures !Inserting(AtSecond(s, before, TokenInsert(k, a, id, io), between), TokenInsert(k, b, id2, io2)).inserted
  {
    StaysSpent(s, before, TokenInsert(k, a, id, io), between, TokenInsert(k, b, id2, io2));
  }
}

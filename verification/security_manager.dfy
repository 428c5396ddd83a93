/** The pending-disconnect queue held by `OIDCSecurityManager`: the
    provider session ids (sids) whose local sessions must be logged out on
    their next request. It is a plain list, not a set: a sid notified twice
    is queued twice and handed out twice. */
module SecurityManager {
  import opened Wrappers
  import opened Sequences

  type Sid = string

  /** `sid_to_disconnect`, oldest entry first. */
  type Queue = seq<Sid>

  /** What `pop_sid_to_disconnect` returns, paired with the queue it leaves. */
  datatype PopResult = PopResult(found: Option<Sid>, rest: Queue)

  /** A fresh security manager starts with nothing queued. */
  const EmptyQueue: Queue := []

  /** `push_sid_to_disconnect`: appends unconditionally, without looking
      for an earlier copy. */
  function Push(q: Queue, sid: Sid): (r: Queue)
    ensures |r| == |q| + 1
    ensures r[..|q|] == q
    ensures r[|q|] == sid
    ensures multiset(r) == multiset(q) + multiset{sid}
  {
    q + [sid]
  }

  /** `pop_sid_to_disconnect`: when `sid` is queued, removes its oldest copy
      and returns it; otherwise returns None and changes nothing. */
  function Pop(q: Queue, sid: Sid): (r: PopResult)
    ensures r.found.Some? <==> sid in q
    ensures r.found.Some? ==> r.found.value == sid
    ensures sid !in q ==> r.rest == q
    ensures sid in q ==> |r.rest| == |q| - 1
    ensures multiset(r.rest) == multiset(q) - multiset{sid}
    ensures forall other :: other != sid ==> multiset(r.rest)[other] == multiset(q)[other]
  {
    if sid in q then PopResult(Some(sid), RemoveFirst(q, sid))
    else PopResult(None, q)
  }

  /** The copy `Pop` removes is the oldest one, and the entries before and
      after it keep their relative order. */
  lemma PopRemovesOldestCopy(q: Queue, sid: Sid)
    requires sid in q
    ensures var i := FirstIndex(q, sid);
      Pop(q, sid).rest == q[..i] + q[i + 1..]
    ensures IsSubsequence(Pop(q, sid).rest, q)
  {
    RemoveFirstAt(q, sid, FirstIndex(q, sid));
    RemoveFirstIsSubsequence(q, sid);
  }

  /** A sid queued once and not yet consumed is handed out by the next pop,
      which leaves the queue as it was before the push; a second pop finds
      nothing. */
  lemma PushThenPopTwice(q: Queue, sid: Sid)
    requires sid !in q
    ensures Pop(Push(q, sid), sid) == PopResult(Some(sid), q)
    ensures Pop(Pop(Push(q, sid), sid).rest, sid) == PopResult(None, q)
  {
    var pushed := Push(q, sid);
    assert sid in pushed;
    RemoveFirstAt(pushed, sid, |q|);
    assert pushed[..|q|] + pushed[|q| + 1..] == q;
  }

  /** Entries pushed after a queued sid do not change which copy a pop of
      that sid consumes: pop hands out the oldest notification first. */
  lemma PopIgnoresLaterPushes(q: Queue, sid: Sid, later: Sid)
    requires sid in q
    ensures Pop(Push(q, later), sid) == PopResult(Some(sid), Push(Pop(q, sid).rest, later))
  {
    RemoveFirstAppend(q, [later], sid);
  }

  /** Number of successive pops of `sid` that succeed before one returns None. */
  function DrainCount(q: Queue, sid: Sid): nat
    decreases |q|
  {
    var p := Pop(q, sid);
    if p.found.None? then 0 else 1 + DrainCount(p.rest, sid)
  }

  /** Each queued copy of a sid is handed out exactly once: repeated pops
      succeed exactly as many times as the sid was queued. */
  lemma {:induction false} DrainCountIsMultiplicity(q: Queue, sid: Sid)
    ensures DrainCount(q, sid) == multiset(q)[sid]
    decreases |q|
  {
    var p := Pop(q, sid);
    if p.found.Some? {
      DrainCountIsMultiplicity(p.rest, sid);
    }
  }
}

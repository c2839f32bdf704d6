/** A chat message and the two reads every history store offers: the log
    stored under a key, and the part of a log sent at or after an instant. */
module Messages {
  import opened Common

  /** `{ username, message, _timestamp }`; the display string ("h:mm a") is
      derived from `_timestamp` and is not modelled. */
  datatype Message = Message(username: string, message: string, timestamp: int)

  /** `map.get(key) || []`: the log under key, empty when the key was never written. */
  function Log(m: map<string, seq<Message>>, key: string): (r: seq<Message>)
    ensures key !in m ==> r == []
    ensures key in m ==> r == m[key]
  {
    if key in m then m[key] else []
  }

  /** The filter predicate `msg => msg._timestamp >= t`. */
  function AtOrAfter(t: int): Message -> bool
  {
    (m: Message) => m.timestamp >= t
  }

  /** `log.filter(msg => msg._timestamp >= t)`. */
  function Since(log: seq<Message>, t: int): (r: seq<Message>)
    ensures IsSubsequence(r, log)
    ensures forall k :: 0 <= k < |r| ==> r[k].timestamp >= t
    ensures forall k :: 0 <= k < |log| && log[k].timestamp >= t ==> log[k] in r
  {
    FilterIsSubsequence(log, AtOrAfter(t));
    Filter(log, AtOrAfter(t))
  }

  /** Filtering after an append: the new message survives exactly when it is recent enough. */
  lemma SinceAppend(log: seq<Message>, m: Message, t: int)
    ensures Since(log + [m], t) == Since(log, t) + (if m.timestamp >= t then [m] else [])
  {
    FilterAppend(log, [m], AtOrAfter(t));
    assert Filter([m], AtOrAfter(t)) == (if m.timestamp >= t then [m] else []) by {
      assert [m][1..] == [];
    }
  }

  /** A later cut-off selects a subsequence of what an earlier cut-off selects. */
  lemma {:induction false} SinceNarrows(log: seq<Message>, t0: int, t1: int)
    requires t0 <= t1
    ensures IsSubsequence(Since(log, t1), Since(log, t0))
    ensures Since(Since(log, t0), t1) == Since(log, t1)
  {
    if log != [] {
      SinceNarrows(log[1..], t0, t1);
      var p0 := AtOrAfter(t0);
      var p1 := AtOrAfter(t1);
      assert Since(log, t0) == (if p0(log[0]) then [log[0]] else []) + Since(log[1..], t0);
      assert Since(log, t1) == (if p1(log[0]) then [log[0]] else []) + Since(log[1..], t1);
      if p1(log[0]) {
        assert Since(log, t1)[1..] == Since(log[1..], t1);
        assert Since(log, t0)[1..] == Since(log[1..], t0);
        assert Since(log, t0)[0] == log[0];
        FilterAppend([log[0]], Since(log[1..], t0), p1);
        assert [log[0]] + Since(log[1..], t0) == Since(log, t0);
        assert [log[0]][1..] == [];
      } else if p0(log[0]) {
        assert Since(log, t1) == Since(log[1..], t1);
        SubsequenceDropFront(Since(log, t1), Since(log, t0));
        assert Since(log, t0)[1..] == Since(log[1..], t0);
        assert Since(log, t0)[..1] + Since(log, t0)[1..] == Since(log, t0);
        FilterAppend(Since(log, t0)[..1], Since(log[1..], t0), p1);
        assert Since(log, t0)[..1][1..] == [];
      } else {
        assert Since(log, t1) == Since(log[1..], t1);
        assert Since(log, t0) == Since(log[1..], t0);
      }
    }
  }

  /** With a cut-off no message precedes, the whole log is selected. */
  lemma SinceEverything(log: seq<Message>, t: int)
    requires forall k :: 0 <= k < |log| ==> log[k].timestamp >= t
    ensures Since(log, t) == log
  {
    FilterAll(log, AtOrAfter(t));
  }
}

/** wantConnQueue (transport.go): a queue in two stages. */
module ConnQueue {
  import opened Wrappers
  import opened ConnPool

  predicate AllSome(s: seq<Option<nat>>) { forall i :: 0 <= i < |s| ==> s[i].Some? }

  function Values(s: seq<Option<nat>>): (r: seq<nat>)
    requires AllSome(s)
    ensures |r| == |s| && forall i :: 0 <= i < |s| ==> r[i] == s[i].value
  {
    seq(|s|, i requires 0 <= i < |s| => s[i].value)
  }

  lemma {:induction false} LeadingShift(q: seq<nat>, wants: map<nat, Want>, i: nat)
    requires i < |q|
    ensures LeadingDone(q[1..], wants, i) + 1 == LeadingDone(q, wants, i + 1)
    decreases |q| - i
  {
    if i + 1 < |q| && !Waiting(wants, q[i + 1]) {
      LeadingShift(q, wants, i + 1);
    }
  }

  /** Popping a waiter that no longer waits is the first step of dropping all of them. */
  lemma {:induction false} DropDoneStep(q: seq<nat>, wants: map<nat, Want>)
    requires q != [] && !Waiting(wants, q[0])
    ensures DropDone(q, wants) == DropDone(q[1..], wants)
  {
    LeadingShift(q, wants, 0);
  }

  class WantConnQueue {
    var head: seq<Option<nat>>   // with nil where a waiter has been popped
    var headPos: nat
    var tail: seq<Option<nat>>

    ghost predicate Valid()
      reads this
    {
      headPos <= |head| && AllSome(head[headPos..]) && AllSome(tail)
    }

    ghost function Contents(): seq<nat>
      reads this
      requires Valid()
    {
      Values(head[headPos..]) + Values(tail)
    }

    constructor (q: seq<nat>)
      ensures Valid() && Contents() == q
    {
      head, headPos := [], 0;
      tail := seq(|q|, i requires 0 <= i < |q| => Some(q[i]));
    }

    method Len() returns (n: nat)
      requires Valid()
      ensures n == |Contents()|
    {
      n := |head| - headPos + |tail|;
    }

    /** all, collecting what it visits. */
    method All() returns (ws: seq<nat>)
      requires Valid()
      ensures ws == Contents()
    {
      ws := [];
      for i := headPos to |head|
        invariant ws == Values(head[headPos..])[..i - headPos]
      {
        assert head[headPos..][i - headPos] == head[i];
        ws := ws + [head[i].value];
      }
      for i := 0 to |tail|
        invariant ws == Values(head[headPos..]) + Values(tail)[..i]
      {
        ws := ws + [tail[i].value];
      }
    }

    method PushBack(w: nat)
      requires Valid()
      modifies this`tail
      ensures Valid() && Contents() == old(Contents()) + [w]
    {
      tail := tail + [Some(w)];
    }

    method PopFront() returns (w: Option<nat>)
      requires Valid()
      modifies this
      ensures Valid()
      ensures old(Contents()) == [] ==> w == None && Contents() == []
      ensures old(Contents()) != [] ==> w == Some(old(Contents()[0])) && Contents() == old(Contents()[1..])
    {
      if headPos >= |head| {
        if |tail| == 0 {
          return None;
        }
        head, headPos, tail := tail, 0, [];
      }
      ghost var before := head[headPos..];
      w := head[headPos];
      head := head[headPos := None];
      headPos := headPos + 1;
      assert head[headPos..] == before[1..];
    }

    method PeekFront() returns (w: Option<nat>)
      requires Valid()
      ensures w == if Contents() == [] then None else Some(Contents()[0])
    {
      if headPos < |head| {
        assert head[headPos..][0] == head[headPos];
        return head[headPos];
      }
      if |tail| > 0 {
        return tail[0];
      }
      return None;
    }

    method CleanFrontNotWaiting(wants: map<nat, Want>) returns (cleaned: bool)
      requires Valid()
      modifies this
      ensures Valid() && Contents() == DropDone(old(Contents()), wants)
      ensures cleaned <==> Contents() != old(Contents())
    {
      cleaned := false;
      while true
        invariant Valid() && DropDone(Contents(), wants) == DropDone(old(Contents()), wants)
        invariant |Contents()| <= |old(Contents())| && (cleaned <==> |Contents()| < |old(Contents())|)
        invariant !cleaned ==> Contents() == old(Contents())
        decreases |Contents()|
      {
        var w := PeekFront();
        if w == None || Waiting(wants, w.value) {
          return;
        }
        DropDoneStep(Contents(), wants);
        var _ := PopFront();
        cleaned := true;
      }
    }
  }
}

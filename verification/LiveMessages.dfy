/** waitlivemsg/waitlivemsg.go: live messages and the list of displayed messages. */
module LiveMessages {
  import opened Sequences

  /** A counter of -1 means that the message is stopped: it shows no spinner. */
  class Message {
    var text: string
    var counter: int

    constructor (text: string)
      ensures this.text == text && counter == 0
    {
      this.text, counter := text, 0;
    }

    predicate Stopped()
      reads this
    {
      counter == -1
    }

    method PlayText(text: string)
      modifies this
      ensures this.text == text && !Stopped()
      ensures counter == if old(counter) == -1 then 0 else old(counter)
    {
      this.text := text;
      if counter == -1 {
        counter := 0;
      }
    }

    method StopText(text: string)
      modifies this
      ensures this.text == text && Stopped()
    {
      this.text := text;
      counter := -1;
    }

    method GetText() returns (text: string)
      ensures text == this.text
    {
      text := this.text;
    }
  }

  function Except<T(==)>(gone: seq<T>): T -> bool {
    x => x !in gone
  }

  class WaitLiveMsg {
    var msgs: seq<Message>

    constructor ()
      ensures msgs == []
    {
      msgs := [];
    }

    method AddMessage(msg: Message)
      modifies this
      ensures msgs == old(msgs) + [msg]
    {
      msgs := msgs + [msg];
    }

    /** Rebuilds the list without any occurrence of the message. */
    method RemoveMessage(msg: Message)
      modifies this
      ensures msgs == Filter(old(msgs), Except([msg]))
    {
      var newSlice := [];
      for i := 0 to |msgs|
        invariant msgs == old(msgs)
        invariant newSlice == Filter(msgs[..i], Except([msg]))
      {
        assert msgs[..i + 1][..i] == msgs[..i];
        if msgs[i] != msg {
          newSlice := newSlice + [msgs[i]];
        }
      }
      assert msgs[..|msgs|] == msgs;
      msgs := newSlice;
    }
  }

  // ----- The two passes of reorderDeployments, for messages of any type -----

  /** The messages of the known services, in the order given. */
  function Listed<T>(order: seq<string>, messages: map<string, T>): seq<T> {
    if order == [] then []
    else if order[|order| - 1] in messages then Listed(order[..|order| - 1], messages) + [messages[order[|order| - 1]]]
    else Listed(order[..|order| - 1], messages)
  }

  function Reordered<T(==)>(msgs: seq<T>, order: seq<string>, messages: map<string, T>): seq<T> {
    Filter(msgs, Except(Listed(order, messages))) + Listed(order, messages)
  }

  lemma {:induction false} RemovingTwice<T>(s: seq<T>, gone: seq<T>, x: T)
    ensures Filter(Filter(s, Except(gone)), Except([x])) == Filter(s, Except(gone + [x]))
  {
    if s == [] {
    } else {
      var z := s[|s| - 1];
      RemovingTwice(s[..|s| - 1], gone, x);
      if z !in gone {
        FilterSnoc(Filter(s[..|s| - 1], Except(gone)), z, Except([x]));
      }
    }
  }

  lemma {:induction false} RemovingNothing<T>(s: seq<T>)
    ensures Filter(s, Except([])) == s
  {
    if s == [] {
    } else {
      RemovingNothing(s[..|s| - 1]);
    }
  }

  function Known<T>(messages: map<string, T>): string -> bool {
    id => id in messages
  }

  lemma {:induction false} ListedFollowsOrder<T>(order: seq<string>, messages: map<string, T>)
    ensures var known := Filter(order, Known(messages));
            && |Listed(order, messages)| == |known|
            && forall i :: 0 <= i < |known| ==> known[i] in messages && Listed(order, messages)[i] == messages[known[i]]
  {
    if order == [] {
    } else {
      ListedFollowsOrder(order[..|order| - 1], messages);
    }
  }

  lemma {:induction false} NoDuplicatesCounts<T>(s: seq<T>, x: T)
    requires NoDuplicates(s)
    ensures multiset(s)[x] <= 1
  {
    if s == [] {
    } else {
      var t := s[..|s| - 1];
      NoDuplicatesCounts(t, x);
      assert s == t + [s[|s| - 1]];
      if x == s[|s| - 1] {
        assert x !in t;
        assert x !in multiset(t);
      }
    }
  }

  lemma DuplicateCounts<T>(s: seq<T>, i: nat, j: nat)
    requires i < j < |s| && s[i] == s[j]
    ensures multiset(s)[s[i]] >= 2
  {
    assert s == s[..j] + s[j..];
    assert s[..j][i] in multiset(s[..j]);
    assert s[j..][0] in multiset(s[j..]);
  }

  /** For distinct messages, the passes only permute what is displayed
      if and only if no known service is repeated in the order. */
  lemma ReorderingConserves<T>(msgs: seq<T>, order: seq<string>, messages: map<string, T>)
    requires NoDuplicates(msgs)
    requires forall id :: id in messages ==> messages[id] in msgs
    requires forall i, j :: i in messages && j in messages && i != j ==> messages[i] != messages[j]
    ensures multiset(Reordered(msgs, order, messages)) == multiset(msgs) <==>
            NoDuplicates(Filter(order, Known(messages)))
  {
    var known, listed := Filter(order, Known(messages)), Listed(order, messages);
    ListedFollowsOrder(order, messages);
    var rest := Filter(msgs, Except(listed));
    if NoDuplicates(known) {
      assert NoDuplicates(listed);
      ReorderedIsPermutation(msgs, listed);
    } else {
      var i, j :| 0 <= i < j < |known| && known[i] == known[j];
      DuplicateCounts(listed, i, j);
      NoDuplicatesCounts(msgs, listed[i]);
      assert multiset(rest + listed)[listed[i]] >= 2;
    }
  }

  lemma {:induction false} ReorderedIsPermutation<T>(msgs: seq<T>, listed: seq<T>)
    requires NoDuplicates(msgs) && NoDuplicates(listed)
    requires forall x :: x in listed ==> x in msgs
    ensures multiset(Filter(msgs, Except(listed)) + listed) == multiset(msgs)
  {
    if listed == [] {
      RemovingNothing(msgs);
      assert msgs + [] == msgs;
    } else {
      var front, z := listed[..|listed| - 1], listed[|listed| - 1];
      assert front + [z] == listed;
      ReorderedIsPermutation(msgs, front);
      var kept := Filter(msgs, Except(front));
      RemovingTwice(msgs, front, z);
      assert z in kept by {
        FilterElements(msgs, Except(front));
      }
      FilterKeepsDistinct(msgs, Except(front));
      RemovingOneCounts(kept, z);
      assert multiset(listed) == multiset(front) + multiset{z};
    }
  }

  lemma WithoutOne<T>(s: seq<T>, i: nat)
    requires i < |s|
    ensures multiset(s) == multiset(s[..i] + s[i + 1..]) + multiset{s[i]}
  {
    assert s == s[..i] + [s[i]] + s[i + 1..];
  }

  lemma RemovingOneCounts<T>(s: seq<T>, z: T)
    requires NoDuplicates(s) && z in s
    ensures multiset(s) == multiset(Filter(s, Except([z]))) + multiset{z}
  {
    var i :| 0 <= i < |s| && s[i] == z;
    RemovingOne(s, i);
    WithoutOne(s, i);
  }

  lemma {:induction false} RemovingOne<T>(s: seq<T>, i: nat)
    requires i < |s| && NoDuplicates(s)
    ensures Filter(s, Except([s[i]])) == s[..i] + s[i + 1..]
  {
    var n := |s| - 1;
    if i < n {
      RemovingOne(s[..n], i);
      assert s[..n][i + 1..] + [s[n]] == s[i + 1..];
    } else {
      RemovingAbsent(s[..n], s[n]);
    }
  }

  lemma {:induction false} RemovingAbsent<T>(s: seq<T>, x: T)
    requires x !in s
    ensures Filter(s, Except([x])) == s
  {
    if s == [] {
    } else {
      RemovingAbsent(s[..|s| - 1], x);
    }
  }
}

/** The event feed: one array of subscribers that Send partitions in place while subscribers come and go. */
module Feed {

  /** REMOVE is the feed's own channel, on which Send hears about subscribers that leave. */
  type Channel = nat
  const REMOVE: Channel := 0

  /** The position of the first case with a channel, or -1. */
  method Find(cases: array<Channel>, len: nat, ch: Channel) returns (index: int)
    requires len <= cases.Length
    ensures index == -1 ==> ch !in cases[..len]
    ensures index != -1 ==> 0 <= index < len && cases[index] == ch && ch !in cases[..index]
  {
    index := 0;
    while index < len
      invariant 0 <= index <= len
      invariant ch !in cases[..index]
    {
      if cases[index] == ch {
        return;
      }
      index := index + 1;
    }
    index := -1;
  }

  /** Moves what follows a position down over it, in place; every view of the array sees it. */
  method Delete(cases: array<Channel>, len: nat, index: nat) returns (shorter: nat)
    requires index < len <= cases.Length
    modifies cases
    ensures shorter == len - 1
    ensures cases[..shorter] == Without(old(cases[..len]), index)
  {
    var i := index;
    while i < len - 1
      invariant index <= i <= len - 1
      invariant forall k :: 0 <= k < index ==> cases[k] == old(cases[k])
      invariant forall k :: index <= k < i ==> cases[k] == old(cases[k + 1])
      invariant forall k :: i < k < len ==> cases[k] == old(cases[k])
    {
      cases[i] := cases[i + 1];
      i := i + 1;
    }
    shorter := len - 1;
    assert forall k :: 0 <= k < shorter ==> cases[k] == Without(old(cases[..len]), index)[k];
  }

  /** Swaps a case with the last one of a view and takes it out of the view. */
  method Deactivate(cases: array<Channel>, len: nat, index: nat) returns (shorter: nat)
    requires index < len <= cases.Length
    modifies cases
    ensures shorter == len - 1
    ensures cases[..] == old(cases[..])[index := old(cases[shorter])][shorter := old(cases[index])]
  {
    shorter := len - 1;
    cases[index], cases[shorter] := cases[shorter], cases[index];
  }

  /** Puts elements behind the first ones, in place when the array has room. */
  method Append(cases: array<Channel>, len: nat, more: seq<Channel>) returns (r: array<Channel>)
    requires len <= cases.Length
    modifies cases
    ensures r == cases || fresh(r)
    ensures len + |more| <= r.Length && r[..len + |more|] == old(cases[..len]) + more
  {
    r := cases;
    if len + |more| > cases.Length {
      r := Copy(cases, len, len + |more|);
    }
    for i := 0 to |more|
      invariant forall k :: 0 <= k < len ==> r[k] == old(cases[k])
      invariant forall k :: len <= k < len + i ==> r[k] == more[k - len]
    {
      r[len + i] := more[i];
    }
  }

  method Copy(cases: array<Channel>, len: nat, size: nat) returns (r: array<Channel>)
    requires len <= cases.Length && len <= size
    ensures fresh(r) && r.Length == size && r[..len] == cases[..len]
  {
    r := new Channel[size](_ => REMOVE);
    for i := 0 to len
      invariant r[..i] == cases[..i]
    {
      r[i] := cases[i];
    }
  }

  /** Cutting one element out of a list takes it out of the multiset. */
  lemma CutOut(s: seq<Channel>, i: nat)
    requires i < |s|
    ensures multiset(s) == multiset(s[..i] + s[i + 1..]) + multiset{s[i]}
  {
    assert s == s[..i] + [s[i]] + s[i + 1..];
  }

  function Swapped(s: seq<Channel>, i: nat, j: nat): seq<Channel>
    requires i < |s| && j < |s|
  {
    s[i := s[j]][j := s[i]]
  }

  function Without(s: seq<Channel>, i: nat): seq<Channel>
    requires i < |s|
  {
    s[..i] + s[i + 1..]
  }

  /** Overwriting an element by the last and dropping the last takes out the element. */
  lemma SwapOut(s: seq<Channel>, i: nat)
    requires i < |s|
    ensures multiset(s) == multiset(s[i := s[|s| - 1]][..|s| - 1]) + multiset{s[i]}
  {
    var t := s[i := s[|s| - 1]];
    assert t == t[..|s| - 1] + [s[|s| - 1]];
    assert multiset(t) == multiset(s) - multiset{s[i]} + multiset{s[|s| - 1]};
  }

  /** Deactivating moves one case from the front part to the back part and disturbs no other. */
  lemma Deactivated(s: seq<Channel>, m: nat, i: nat)
    requires 1 <= i < m <= |s|
    ensures multiset(s[1..m]) == multiset(Swapped(s, i, m - 1)[1..m - 1]) + multiset{s[i]}
    ensures multiset(Swapped(s, i, m - 1)[m - 1..]) == multiset(s[m..]) + multiset{s[i]}
  {
    SwapOut(s[1..m], i - 1);
    FrontAfterSwap(s, m, i);
    BackAfterSwap(s, m, i);
  }

  lemma FrontAfterSwap(s: seq<Channel>, m: nat, i: nat)
    requires 1 <= i < m <= |s|
    ensures Swapped(s, i, m - 1)[1..m - 1] == s[1..m][i - 1 := s[m - 1]][..m - 2]
  {
  }

  lemma BackAfterSwap(s: seq<Channel>, m: nat, i: nat)
    requires 1 <= i < m <= |s|
    ensures multiset(Swapped(s, i, m - 1)[m - 1..]) == multiset(s[m..]) + multiset{s[i]}
  {
    assert Swapped(s, i, m - 1)[m - 1..] == [s[i]] + s[m..];
  }

  /** Deleting a case takes it out of the part it was in and leaves the other part alone. */
  lemma Deleted(s: seq<Channel>, m: nat, i: nat)
    requires 1 <= i < |s| && 1 <= m <= |s|
    ensures i < m ==>
      && multiset(s[1..m]) == multiset(Without(s, i)[1..m - 1]) + multiset{s[i]}
      && Without(s, i)[m - 1..] == s[m..]
    ensures i >= m ==>
      && Without(s, i)[1..m] == s[1..m]
      && multiset(s[m..]) == multiset(Without(s, i)[m..]) + multiset{s[i]}
  {
    var t := Without(s, i);
    if i < m {
      CutOut(s[1..m], i - 1);
      assert t[1..m - 1] == s[1..m][..i - 1] + s[1..m][i..];
      assert t[m - 1..] == s[m..];
    } else {
      CutOut(s[m..], i - m);
      assert t[m..] == s[m..][..i - m] + s[m..][i - m + 1..];
      assert t[1..m] == s[1..m];
    }
  }

  /** Every live subscription is in the inbox or among the cases, once; and one that is being removed is among the
      cases. The first case is the feed's own. */
  ghost predicate Consistent(cases: seq<Channel>, inbox: seq<Channel>, removing: multiset<Channel>,
                             live: multiset<Channel>)
  {
    && |cases| >= 1 && cases[0] == REMOVE && REMOVE !in cases[1..] && REMOVE !in inbox
    && live == multiset(cases[1..]) + multiset(inbox)
    && removing <= multiset(cases[1..])
  }

  lemma LeavesInbox(cases: seq<Channel>, inbox: seq<Channel>, removing: multiset<Channel>, live: multiset<Channel>,
                    i: nat)
    requires Consistent(cases, inbox, removing, live) && i < |inbox|
    ensures Consistent(cases, Without(inbox, i), removing, live - multiset{inbox[i]})
  {
    CutOut(inbox, i);
  }

  /** A subscription that is not in the inbox must be among the cases, beside all others being removed. */
  lemma AmongCases(cases: seq<Channel>, inbox: seq<Channel>, removing: multiset<Channel>, live: multiset<Channel>,
                   ch: Channel)
    requires Consistent(cases, inbox, removing, live) && ch in live - removing && ch !in inbox
    ensures Consistent(cases, inbox, removing + multiset{ch}, live)
  {
    assert multiset(inbox)[ch] == 0;
  }

  /** A subscription that is being removed is found, and taking out its case leaves all others. */
  lemma LeavesCases(cases: seq<Channel>, inbox: seq<Channel>, removing: multiset<Channel>, live: multiset<Channel>,
                    ch: Channel, i: int)
    requires Consistent(cases, inbox, removing, live) && ch in removing
    requires if i == -1 then ch !in cases else 0 <= i < |cases| && cases[i] == ch
    ensures 1 <= i < |cases|
    ensures Consistent(Without(cases, i), inbox, removing - multiset{ch}, live - multiset{ch})
  {
    assert multiset(cases[1..])[ch] > 0;
    assert ch in cases[1..];
    CutOut(cases[1..], i - 1);
    assert Without(cases, i)[1..] == cases[1..][..i - 1] + cases[1..][i..];
  }

  class Feed {
    var sendCases: array<Channel>
    var len: nat
    var inbox: seq<Channel>
    /** Subscribers blocked in `remove`, waiting for a Send in progress or for the send lock. */
    var removing: multiset<Channel>
    /** The subscriptions clients hold and have not finished cancelling. */
    var live: multiset<Channel>

    ghost predicate Valid()
      reads this, sendCases
    {
      1 <= len <= sendCases.Length && Consistent(sendCases[..len], inbox, removing, live)
    }

    ghost function Cases(): seq<Channel>
      reads this, sendCases
      requires len <= sendCases.Length
    {
      sendCases[..len]
    }

    constructor ()
      ensures Valid() && live == removing == multiset{} && fresh(sendCases)
    {
      sendCases := new Channel[1](_ => REMOVE);
      len, inbox, removing, live := 1, [], multiset{}, multiset{};
    }

    method Subscribe(ch: Channel)
      requires Valid() && ch != REMOVE
      modifies this`inbox, this`live
      ensures Valid() && live == old(live) + multiset{ch}
    {
      inbox := inbox + [ch];
      live := live + multiset{ch};
    }

    /** The first half of `remove`: a subscription still in the inbox is gone at once; any other has reached the
        cases, where the second half will find it. */
    method BeginRemove(ch: Channel) returns (done: bool)
      requires Valid() && ch in live - removing
      modifies this`inbox, this`live, this`removing
      ensures Valid() && done == (ch in old(inbox))
      ensures live == if done then old(live) - multiset{ch} else old(live)
      ensures removing == if done then old(removing) else old(removing) + multiset{ch}
    {
      var index := 0;
      while index < |inbox| && inbox[index] != ch
        invariant 0 <= index <= |inbox| && ch !in inbox[..index]
      {
        index := index + 1;
      }
      if index < |inbox| {
        LeavesInbox(Cases(), inbox, removing, live, index);
        inbox := inbox[..index] + inbox[index + 1..];
        live := live - multiset{ch};
        return true;
      }
      AmongCases(Cases(), inbox, removing, live, ch);
      removing := removing + multiset{ch};
      return false;
    }

    /** Takes the case of a leaving subscriber out of the array. It is always there. */
    method TakeOut(ch: Channel) returns (index: nat)
      requires Valid() && ch in removing
      modifies this`len, this`live, this`removing, sendCases
      ensures Valid() && live == old(live) - multiset{ch} && removing == old(removing) - multiset{ch}
      ensures 1 <= index < old(len) && old(Cases())[index] == ch && Cases() == Without(old(Cases()), index)
    {
      ghost var s := Cases();
      var found := Find(sendCases, len, ch);
      LeavesCases(s, inbox, removing, live, ch, found);
      index := found;
      len := Delete(sendCases, len, index);
      assert Cases() == Without(s, index);
      live, removing := live - multiset{ch}, removing - multiset{ch};
    }

    /** The second half, when no Send is in progress. */
    method FinishRemove(ch: Channel)
      requires Valid() && ch in removing
      modifies this`len, this`live, this`removing, sendCases
      ensures Valid() && live == old(live) - multiset{ch} && removing == old(removing) - multiset{ch}
    {
      var _ := TakeOut(ch);
    }

    /** What other goroutines may do while Send is blocked: any number of them subscribe or begin to leave. */
    method Interfere()
      requires Valid()
      modifies this`inbox, this`live, this`removing
      ensures Valid() && old(removing) <= removing
    {
      var steps: nat :| true;
      while steps > 0
        invariant Valid() && old(removing) <= removing
      {
        var other: nat :| true;
        var ch, arrives := other + 1, *;
        if arrives {
          Subscribe(ch);
        } else if ch in live - removing {
          var _ := BeginRemove(ch);
        }
        steps := steps - 1;
      }
    }

    /** New subscribers join the cases. The array is extended in place when it has room and replaced otherwise. */
    method Absorb()
      requires Valid()
      modifies this`sendCases, this`len, this`inbox, sendCases
      ensures Valid() && inbox == [] && Cases() == old(Cases()) + old(inbox)
      ensures fresh(sendCases) || sendCases == old(sendCases)
    {
      ghost var cases := Cases();
      Absorbed(cases, inbox, removing, live);
      sendCases := Append(sendCases, len, inbox);
      len, inbox := len + |inbox|, [];
      assert Cases() == cases + old(inbox);
    }

    /** A case has accepted the value. */
    method Hand(active: nat, index: nat, nsent: nat, ghost a: Account)
      returns (active': nat, nsent': nat, ghost a': Account)
      requires Sending(active, nsent, a) && 1 <= index < active
      modifies sendCases
      ensures Sending(active', nsent', a') && active' == active - 1 && nsent' == nsent + 1
      ensures a' == a.(delivered := a.delivered + multiset{old(sendCases[index])})
    {
      ghost var cases := Cases();
      Reordered(cases, inbox, removing, live, index, active - 1);
      Handed(cases, active, index, a);
      nsent', a' := nsent + 1, a.(delivered := a.delivered + multiset{sendCases[index]});
      active' := Deactivate(sendCases, active, index);
      assert Cases() == Swapped(cases, index, active - 1);
    }

    /** The middle of a Send. */
    ghost predicate Sending(active: nat, nsent: nat, a: Account)
      reads this, sendCases
    {
      Valid() && Halves(Cases(), active, a) && nsent == |a.delivered|
    }

    /** The fast path: every active case is tried once without blocking. */
    method TrySendAll(active: nat, nsent: nat, ghost a: Account)
      returns (active': nat, nsent': nat, ghost a': Account)
      requires Sending(active, nsent, a)
      modifies sendCases
      ensures Sending(active', nsent', a') && active' <= active && a'.start == a.start
    {
      active', nsent', a' := active, nsent, a;
      var i := 1;
      while i < active'
        invariant 1 <= i <= active' <= active && Sending(active', nsent', a') && a'.start == a.start
      {
        var accepted: bool := *;
        if accepted {
          active', nsent', a' := Hand(active', i, nsent', a');
        } else {
          i := i + 1;
        }
      }
    }

    /** The blocking path: one channel accepts the value, or one subscriber leaves. */
    method Select(active: nat, nsent: nat, ghost a: Account)
      returns (active': nat, nsent': nat, ghost a': Account)
      requires Sending(active, nsent, a) && active > 1
      modifies this`len, this`inbox, this`live, this`removing, sendCases
      ensures Sending(active', nsent', a') && a'.start == a.start
      ensures active' <= active && len <= old(len) && len + active' < old(len) + active
    {
      Interfere();
      var chosen: nat :| chosen < active && (chosen == 0 ==> removing != multiset{});
      if chosen == 0 {
        var ch :| ch in removing;
        ghost var cases := Cases();
        var index := TakeOut(ch);
        Taken(cases, active, index, a);
        nsent' := nsent;
        if index < active {
          active', a' := active - 1, a.(removed := a.removed + multiset{ch});
        } else {
          active', a' := active, a.(removed := a.removed + multiset{ch}, late := a.late + multiset{ch});
        }
      } else {
        active', nsent', a' := Hand(active, chosen, nsent, a);
      }
    }

    /** Send. The account says who was subscribed when it began, who got the value, who was taken out while it ran, and
        who of these already had it. Everybody who stays gets the value exactly once, the count is that of the
        deliveries, and nobody is lost. Channels accept, block and leave in any order; every round that blocks
        delivers to a case or removes one, so Send ends once its channels have unblocked. */
    method Send() returns (nsent: nat, ghost a: Account)
      requires Valid()
      modifies this, sendCases
      ensures Valid() && nsent == |a.delivered|
      ensures a.start == multiset(old(Cases())[1..]) + multiset(old(inbox))
      ensures a.start == multiset(Cases()[1..]) + a.removed
      ensures a.delivered == multiset(Cases()[1..]) + a.late && a.late <= a.removed
    {
      ghost var before, joining := Cases(), inbox;
      Absorb();
      Began(before, joining);
      nsent, a := Rounds(Account(multiset(Cases()[1..]), multiset{}, multiset{}, multiset{}));
      Ended(Cases(), a);
    }

    method Rounds(ghost a: Account) returns (nsent: nat, ghost a': Account)
      requires Sending(len, 0, a)
      modifies this`len, this`inbox, this`live, this`removing, sendCases
      ensures Sending(1, nsent, a') && a'.start == a.start
    {
      var active := len;
      nsent, a' := 0, a;
      while true
        invariant Sending(active, nsent, a') && a'.start == a.start
        decreases len + active
      {
        active, nsent, a' := TrySendAll(active, nsent, a');
        if active == 1 {
          break;
        }
        active, nsent, a' := Select(active, nsent, a');
      }
    }
  }

  /** Who was subscribed at the start of a Send, who got the value, who was taken out and, of these, who had it. */
  datatype Account = Account(start: multiset<Channel>, delivered: multiset<Channel>, removed: multiset<Channel>,
                             late: multiset<Channel>)

  lemma Absorbed(cases: seq<Channel>, inbox: seq<Channel>, removing: multiset<Channel>, live: multiset<Channel>)
    requires Consistent(cases, inbox, removing, live)
    ensures Consistent(cases + inbox, [], removing, live)
  {
    assert (cases + inbox)[1..] == cases[1..] + inbox;
  }

  lemma Reordered(cases: seq<Channel>, inbox: seq<Channel>, removing: multiset<Channel>, live: multiset<Channel>,
                  i: nat, j: nat)
    requires Consistent(cases, inbox, removing, live) && 1 <= i < |cases| && 1 <= j < |cases|
    ensures Consistent(Swapped(cases, i, j), inbox, removing, live)
  {
    var rest := cases[1..];
    assert Swapped(cases, i, j)[1..] == Swapped(rest, i - 1, j - 1);
    assert multiset(Swapped(rest, i - 1, j - 1)) == multiset(rest);
  }

  lemma Began(cases: seq<Channel>, joining: seq<Channel>)
    requires |cases| >= 1
    ensures var all := cases + joining;
      && multiset(all[1..]) == multiset(cases[1..]) + multiset(joining)
      && Halves(all, |all|, Account(multiset(all[1..]), multiset{}, multiset{}, multiset{}))
  {
    var all := cases + joining;
    assert all[1..] == cases[1..] + joining && all[1..|all|] == all[1..];
  }

  lemma Ended(cases: seq<Channel>, a: Account)
    requires Halves(cases, 1, a)
    ensures a.start == multiset(cases[1..]) + a.removed
    ensures a.delivered == multiset(cases[1..]) + a.late
  {
    assert cases[1..1] == [];
  }

  lemma Handed(cases: seq<Channel>, active: nat, i: nat, a: Account)
    requires Halves(cases, active, a) && 1 <= i < active
    ensures Halves(Swapped(cases, i, active - 1), active - 1, a.(delivered := a.delivered + multiset{cases[i]}))
  {
    Deactivated(cases, active, i);
  }

  lemma Taken(cases: seq<Channel>, active: nat, i: nat, a: Account)
    requires Halves(cases, active, a) && 1 <= i < |cases|
    ensures i < active ==>
      Halves(Without(cases, i), active - 1, a.(removed := a.removed + multiset{cases[i]}))
    ensures i >= active ==>
      Halves(Without(cases, i), active,
             a.(removed := a.removed + multiset{cases[i]}, late := a.late + multiset{cases[i]}))
  {
    Deleted(cases, active, i);
  }

  /** The cases in the middle of a Send: those in front still wait for the value, those behind have it. */
  ghost predicate Halves(cases: seq<Channel>, active: nat, a: Account)
  {
    && 1 <= active <= |cases| && a.late <= a.removed
    && a.start == multiset(cases[1..active]) + a.delivered + (a.removed - a.late)
    && a.delivered == multiset(cases[active..]) + a.late
  }
}

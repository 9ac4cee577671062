/**
 * The list of accepted instances, shared by the decoders of all connections: each of them sorts
 * it in place when it starts, while others may sort or search it.
 */
module Instances {
  import opened Bytes
  import opened Decoder
  import opened Proto
  import opened Sorting

  /** Where a decoder is: in its insertion sort, with the two loop variables, or in the decoding loop. */
  datatype Phase = Sort(i: nat, j: nat) | Decoding

  datatype State = State(list: seq<byte>, decoders: seq<Phase>)

  datatype Event = Connect | Work(decoder: nat)

  function Swapped(s: seq<byte>, j: nat): seq<byte>
    requires 0 < j < |s|
  {
    s[j := s[j - 1]][j - 1 := s[j]]
  }

  /** One turn of the sort: an element moves down past a larger one, or is in its place. */
  function Next(s: State, e: Event): State {
    match e
    case Connect => s.(decoders := s.decoders + [Sort(1, 1)])
    case Work(d) =>
      if d >= |s.decoders| || s.decoders[d].Decoding? then s
      else
        var Sort(i, j) := s.decoders[d];
        if i >= |s.list| then s.(decoders := s.decoders[d := Decoding])
        else if 0 < j < |s.list| && s.list[j] < s.list[j - 1]
        then State(Swapped(s.list, j), s.decoders[d := Sort(i, j - 1)])
        else s.(decoders := s.decoders[d := Sort(i + 1, i + 1)])
  }

  function Run(s: State, es: seq<Event>): State {
    if es == [] then s else Next(Run(s, es[..|es| - 1]), es[|es| - 1])
  }

  /** No interleaving of sorts ever changes a list that is ascending at the start. */
  lemma {:induction false} AscendingIsNeverChanged(s: State, es: seq<Event>)
    requires SortedBy(s.list, BY_VALUE)
    ensures Run(s, es).list == s.list
  {
    if es == [] {
    } else {
      var s1 := Run(s, es[..|es| - 1]);
      AscendingIsNeverChanged(s, es[..|es| - 1]);
      assert forall j :: 0 < j < |s.list| ==> BY_VALUE(s1.list[j - 1]) <= BY_VALUE(s1.list[j]);
    }
  }

  /** So with an ascending list every connection filters by membership, at every moment. */
  lemma AscendingFilters(s: State, es: seq<Event>, instance: byte)
    requires SortedBy(s.list, BY_VALUE)
    ensures Passes(Run(s, es).list, instance) <==> Accepted(s.list, instance)
  {
    AscendingIsNeverChanged(s, es);
    AscendingPassesAccepted(s.list, instance);
  }

  // ----- a sort that is not disturbed -----

  /** The elements up to i are in order, except for the one at j that is still moving down. */
  ghost predicate IsInserting(s: seq<byte>, i: nat, j: nat) {
    && j <= i
    && forall a, b :: 0 <= a < b <= i && b < |s| && b != j ==> s[a] <= s[b]
  }

  lemma TurnKeepsInserting(s: seq<byte>, i: nat, j: nat)
    requires IsInserting(s, i, j) && i < |s|
    ensures if 0 < j && s[j] < s[j - 1] then IsInserting(Swapped(s, j), i, j - 1) else IsInserting(s, i + 1, i + 1)
    ensures 0 < j ==> multiset(Swapped(s, j)) == multiset(s)
  {
    if 0 < j {
      var t := Swapped(s, j);
      assert s == s[..j - 1] + [s[j - 1], s[j]] + s[j + 1..];
      assert t == s[..j - 1] + [s[j], s[j - 1]] + s[j + 1..];
    }
  }

  ghost predicate SortsAlone(s: State, listed: seq<byte>) {
    && |s.decoders| == 1
    && multiset(s.list) == multiset(listed)
    && match s.decoders[0]
       case Sort(i, j) => 0 < i && IsInserting(s.list, i, j) && (i >= |s.list| ==> j == i)
       case Decoding => SortedBy(s.list, BY_VALUE)
  }

  lemma InsertedIsSorted(s: seq<byte>, i: nat)
    requires IsInserting(s, i, i) && |s| <= i
    ensures SortedBy(s, BY_VALUE)
  {
  }

  lemma WorkKeepsAlone(s: State, listed: seq<byte>)
    requires SortsAlone(s, listed)
    ensures SortsAlone(Next(s, Work(0)), listed)
  {
    hide IsInserting, Swapped, SortedBy;
    if s.decoders[0].Sort? {
      var Sort(i, j) := s.decoders[0];
      InsertingBounds(s.list, i, j);
      if i < |s.list| {
        TurnKeepsInserting(s.list, i, j);
        SwappedSize(s.list, j);
      } else {
        InsertedIsSorted(s.list, i);
      }
    }
  }

  lemma InsertingBounds(s: seq<byte>, i: nat, j: nat)
    requires IsInserting(s, i, j)
    ensures j <= i
  {
  }

  lemma SwappedSize(s: seq<byte>, j: nat)
    requires j < |s|
    ensures 0 < j ==> |Swapped(s, j)| == |s|
  {
  }

  /** The first decoder, left alone until it decodes, has sorted the list; from then on it stays as it is. */
  lemma {:induction false} AloneSorts(listed: seq<byte>, n: nat)
    ensures SortsAlone(Run(State(listed, [Sort(1, 1)]), seq(n, _ => Work(0))), listed)
  {
    var es := seq(n, _ => Work(0));
    if n == 0 {
      assert es == [];
    } else {
      AloneSorts(listed, n - 1);
      assert es[..n - 1] == seq(n - 1, _ => Work(0));
      WorkKeepsAlone(Run(State(listed, [Sort(1, 1)]), es[..n - 1]), listed);
    }
  }

  /** If the first connection sorts before a second one comes, all of them filter by membership, whatever follows. */
  lemma FirstSortSettles(listed: seq<byte>, n: nat, es: seq<Event>, instance: byte)
    requires Run(State(listed, [Sort(1, 1)]), seq(n, _ => Work(0))).decoders == [Decoding]
    ensures var s := Run(Run(State(listed, [Sort(1, 1)]), seq(n, _ => Work(0))), es);
            Passes(s.list, instance) <==> Accepted(listed, instance)
  {
    AloneSorts(listed, n);
    var s := Run(State(listed, [Sort(1, 1)]), seq(n, _ => Work(0)));
    AscendingFilters(s, es, instance);
    SameMembers(s.list, listed);
  }

  // ----- a sort that is disturbed -----

  lemma RunMore(s: State, es: seq<Event>, e: Event)
    ensures Run(s, es + [e]) == Next(Run(s, es), e)
  {
    assert (es + [e])[..|es|] == es;
  }

  /**
   * Two connections that start at the same time on the list 2, 3, 1: the second one finds its
   * sort done while the first has only moved the 1 past the 3, and it drops packets of the
   * accepted instance 1.
   */
  lemma DisturbedSortLosesInstance()
    ensures var es := [Connect, Connect, Work(1), Work(0), Work(0), Work(1), Work(1)];
            var s := Run(State([2, 3, 1], []), es);
            && s == State([2, 1, 3], [Sort(2, 1), Decoding])
            && Accepted([2, 3, 1], 1) && !Passes(s.list, 1)
  {
    hide Run, Passes;
    var s0 := State([2, 3, 1], []);
    var e3, e5 := [Connect, Connect, Work(1)], [Connect, Connect, Work(1), Work(0), Work(0)];
    NothingRun(s0);
    assert [] + [Connect] == [Connect] && [Connect] + [Connect] == [Connect, Connect];
    RunMore(s0, [], Connect);
    RunMore(s0, [Connect], Connect);
    assert [Connect, Connect] + [Work(1)] == e3;
    RunMore(s0, [Connect, Connect], Work(1));
    assert Run(s0, e3) == State([2, 3, 1], [Sort(1, 1), Sort(2, 2)]);
    assert e3 + [Work(0)] + [Work(0)] == e5;
    RunMore(s0, e3, Work(0));
    RunMore(s0, e3 + [Work(0)], Work(0));
    assert Run(s0, e5) == State([2, 1, 3], [Sort(2, 1), Sort(2, 2)]);
    assert e5 + [Work(1)] + [Work(1)] == [Connect, Connect, Work(1), Work(0), Work(0), Work(1), Work(1)];
    RunMore(s0, e5, Work(1));
    RunMore(s0, e5 + [Work(1)], Work(1));
    LostInSearch();
  }

  lemma NothingRun(s: State)
    ensures Run(s, []) == s
  {
  }

  lemma LostInSearch()
    ensures !Passes([2, 1, 3], 1)
  {
    var f := NotBelow([2, 1, 3], 1);
    assert Probe(f, 0, 0) == 0 && Probe(f, 0, 1) == 0;
    assert Probe(f, 0, 3) == Probe(f, 0, 1);
  }
}

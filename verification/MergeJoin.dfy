/** Joins on an equal key: the nested-loop join that says what a join is, and the merge join
    that produces the same tuples in the same order from sorted inputs
    (execution/operators_join.cpp, execution/operators_ordering.cpp). */
module MergeJoin {
  import opened Options

  /** A tuple with the value of its join key, which is not NULL. */
  datatype Tuple = Tuple(key: int, row: nat)
  datatype Pair = Pair(left: Tuple, right: Tuple)

  /** ---------- What a join is ---------- */

  /** The matches of one left tuple, in the order of the right input. */
  function MatchesOf(l: Tuple, right: seq<Tuple>): seq<Pair> {
    if right == [] then []
    else if l.key == right[0].key then [Pair(l, right[0])] + MatchesOf(l, right[1..])
    else MatchesOf(l, right[1..])
  }

  function Join(left: seq<Tuple>, right: seq<Tuple>): seq<Pair> {
    if left == [] then [] else MatchesOf(left[0], right) + Join(left[1..], right)
  }

  predicate Ascending(s: seq<Tuple>) { forall i, j :: 0 <= i < j < |s| ==> s[i].key <= s[j].key }

  lemma {:induction false} NoMatches(l: Tuple, right: seq<Tuple>)
    requires forall i :: 0 <= i < |right| ==> right[i].key != l.key
    ensures MatchesOf(l, right) == []
  {
    if right != [] { NoMatches(l, right[1..]); }
  }

  lemma {:induction false} SkipSmaller(l: Tuple, right: seq<Tuple>, n: nat)
    requires n <= |right| && forall i :: 0 <= i < n ==> right[i].key != l.key
    ensures MatchesOf(l, right) == MatchesOf(l, right[n..])
  {
    if n > 0 {
      SkipSmaller(l, right[1..], n - 1);
      assert right[1..][n - 1..] == right[n..];
    } else {
      assert right[0..] == right;
    }
  }

  lemma {:induction false} NothingLeft(left: seq<Tuple>, right: seq<Tuple>)
    requires forall i, j :: 0 <= i < |left| && 0 <= j < |right| ==> right[j].key < left[i].key
    ensures Join(left, right) == []
  {
    if left != [] {
      NoMatches(left[0], right);
      NothingLeft(left[1..], right);
    }
  }

  /** ---------- Children ---------- */

  /** An input read once from left to right. */
  class Source {
    const tuples: seq<Tuple>
    var pos: nat

    constructor (tuples: seq<Tuple>)
      ensures this.tuples == tuples && pos == 0
    {
      this.tuples, pos := tuples, 0;
    }

    method Next() returns (t: Option<Tuple>)
      requires pos <= |tuples|
      modifies this
      ensures pos <= |tuples|
      ensures if old(pos) < |tuples| then t == Some(tuples[old(pos)]) && pos == old(pos) + 1
              else t.None? && pos == old(pos)
    {
      if pos >= |tuples| { return None; }
      t := Some(tuples[pos]);
      pos := pos + 1;
    }

    /** Close and Init. */
    method Restart()
      modifies this
      ensures pos == 0
    {
      pos := 0;
    }
  }

  /** MaterializeExecutor: an input with a mark to go back to. */
  class Materialize {
    const tuples: seq<Tuple>
    var pos: nat
    var mark: nat

    constructor (tuples: seq<Tuple>)
      ensures this.tuples == tuples && pos == 0 && mark == 0
    {
      this.tuples, pos, mark := tuples, 0, 0;
    }

    method Next() returns (t: Option<Tuple>)
      requires pos <= |tuples|
      modifies this`pos
      ensures pos <= |tuples|
      ensures if old(pos) < |tuples| then t == Some(tuples[old(pos)]) && pos == old(pos) + 1
              else t.None? && pos == old(pos)
    {
      if pos >= |tuples| { return None; }
      t := Some(tuples[pos]);
      pos := pos + 1;
    }

    method MarkPosition()
      modifies this`mark
      ensures mark == pos
    {
      mark := pos;
    }

    method RestorePosition()
      modifies this`pos
      ensures pos == mark
    {
      pos := mark;
    }
  }

  /** ---------- Nested-loop join ---------- */

  class NestedLoopJoin {
    const left: Source
    const right: Source
    var current: Option<Tuple>

    ghost predicate Valid()
      reads this, left, right
    {
      && left != right && left.pos <= |left.tuples| && right.pos <= |right.tuples|
      && (current.Some? ==> left.pos > 0 && current.value == left.tuples[left.pos - 1])
    }

    /** The output still to come. */
    ghost function Rest(): seq<Pair>
      requires Valid()
      reads this, left, right
    {
      (if current.Some? then MatchesOf(current.value, right.tuples[right.pos..]) else []) +
          Join(left.tuples[left.pos..], right.tuples)
    }

    constructor (left: seq<Tuple>, right: seq<Tuple>)
      ensures Valid() && fresh(this.left) && fresh(this.right) && Rest() == Join(left, right)
    {
      this.left := new Source(left);
      this.right := new Source(right);
      current := None;
      new;
      assert left[0..] == left;
    }

    method Next() returns (out: Option<Pair>)
      requires Valid()
      modifies this, left, right
      ensures Valid() && Emits(old(Rest()), out, Rest())
    {
      hide Join, MatchesOf, Emits;
      while true
        invariant Valid() && Rest() == old(Rest())
        decreases |left.tuples| - left.pos, if current.Some? then 1 else 0
      {
        if current.None? {
          NextLeft();
          if current.None? {
            NoMore();
            return None;
          }
        }
        ghost var mine, more := MatchesOf(current.value, right.tuples[right.pos..]),
            Join(left.tuples[left.pos..], right.tuples);
        out := Scan();
        if out.Some? {
          EmitsFirst(mine, out, MatchesOf(current.value, right.tuples[right.pos..]), more);
          return;
        }
        assert [] + more == more;
        current := None;
      }
    }

    /** Load the next left tuple and start the right input again. */
    method NextLeft()
      requires Valid() && current.None?
      modifies this, left, right
      ensures Valid() && Rest() == old(Rest()) && (current.None? ==> Rest() == [])
      ensures current.Some? ==> left.pos > old(left.pos)
    {
      ghost var rest := left.tuples[left.pos..];
      current := left.Next();
      if current.None? { return; }
      assert rest[1..] == left.tuples[left.pos..];
      right.Restart();
      assert right.tuples[0..] == right.tuples;
    }

    /** The inner loop: on to the next match of the current left tuple. */
    method Scan() returns (out: Option<Pair>)
      requires Valid() && current.Some?
      modifies right
      ensures Valid()
      ensures if MatchesOf(current.value, old(right.tuples[right.pos..])) == [] then out.None?
              else out.Some? && Emits(MatchesOf(current.value, old(right.tuples[right.pos..])), out,
                                      MatchesOf(current.value, right.tuples[right.pos..]))
    {
      while true
        invariant Valid()
        invariant MatchesOf(current.value, right.tuples[right.pos..]) ==
            MatchesOf(current.value, old(right.tuples[right.pos..]))
        decreases |right.tuples| - right.pos
      {
        ghost var rest := right.tuples[right.pos..];
        var t := right.Next();
        if t.None? { return None; }
        assert rest[1..] == right.tuples[right.pos..];
        if t.value.key == current.value.key { return Some(Pair(current.value, t.value)); }
      }
    }
  }

  /** One call of Next on an output: its first tuple goes, or it is over. */
  ghost predicate Emits(before: seq<Pair>, out: Option<Pair>, after: seq<Pair>) {
    if before == [] then out.None? && after == [] else out == Some(before[0]) && after == before[1..]
  }

  lemma NoMore()
    ensures Emits([], None, [])
  {
  }

  lemma EmitsFirst(mine: seq<Pair>, out: Option<Pair>, rest: seq<Pair>, more: seq<Pair>)
    requires Emits(mine, out, rest) && mine != []
    ensures Emits(mine + more, out, rest + more)
  {
  }

  /** ---------- Merge join ---------- */

  datatype State = NeedCompare | EmitMatches | AdvanceOuter | Exhausted

  /** Where the machine stands: left[i] and right[j] are the current tuples, or there is
      none if the index is at the end; m is the first right tuple of the group of equal keys
      being emitted. */
  datatype Place = Place(state: State, i: nat, j: nat, m: nat, key: int)

  ghost predicate InGroup(left: seq<Tuple>, right: seq<Tuple>, p: Place)
    requires p.i <= |left| && p.j <= |right|
  {
    && p.i < |left| && left[p.i].key == p.key && p.m <= p.j && p.m < |right| && right[p.m].key == p.key
    && (forall x :: 0 <= x < p.m ==> right[x].key < p.key)
    && (forall x :: p.m <= x < p.j ==> right[x].key == p.key)
  }

  ghost predicate PlaceOk(left: seq<Tuple>, right: seq<Tuple>, p: Place) {
    && Ascending(left) && Ascending(right) && p.i <= |left| && p.j <= |right|
    && match p.state
       case NeedCompare => forall x, y :: 0 <= x < p.j && p.i <= y < |left| ==> right[x].key < left[y].key
       case EmitMatches => InGroup(left, right, p) && p.j < |right| && right[p.j].key == p.key
       case AdvanceOuter => InGroup(left, right, p) && (p.j < |right| ==> right[p.j].key > p.key)
       case Exhausted => true
  }

  /** The output still to come. */
  ghost function RestOf(left: seq<Tuple>, right: seq<Tuple>, p: Place): seq<Pair>
    requires PlaceOk(left, right, p)
  {
    match p.state
    case NeedCompare => Join(left[p.i..], right)
    case EmitMatches => MatchesOf(left[p.i], right[p.j..]) + Join(left[p.i + 1..], right)
    case AdvanceOuter => Join(left[p.i + 1..], right)
    case Exhausted => []
  }

  lemma {:induction false} JoinStep(left: seq<Tuple>, i: nat, right: seq<Tuple>)
    requires i < |left|
    ensures Join(left[i..], right) == MatchesOf(left[i], right) + Join(left[i + 1..], right)
  {
  }

  lemma {:induction false} StopOk(left: seq<Tuple>, right: seq<Tuple>, p: Place)
    requires PlaceOk(left, right, p) && p.state.NeedCompare? && (p.i == |left| || p.j == |right|)
    ensures PlaceOk(left, right, p.(state := Exhausted)) && RestOf(left, right, p) == []
  {
    NothingLeft(left[p.i..], right);
  }

  lemma {:induction false} SkipLeftOk(left: seq<Tuple>, right: seq<Tuple>, p: Place)
    requires PlaceOk(left, right, p) && p.state.NeedCompare? && p.i < |left| && p.j < |right|
    requires left[p.i].key < right[p.j].key
    ensures PlaceOk(left, right, p.(i := p.i + 1)) && RestOf(left, right, p.(i := p.i + 1)) == RestOf(left, right, p)
  {
    NoMatches(left[p.i], right);
    JoinStep(left, p.i, right);
    hide Join;
  }

  lemma {:induction false} SkipRightOk(left: seq<Tuple>, right: seq<Tuple>, p: Place)
    requires PlaceOk(left, right, p) && p.state.NeedCompare? && p.i < |left| && p.j < |right|
    requires left[p.i].key > right[p.j].key
    ensures PlaceOk(left, right, p.(j := p.j + 1)) && RestOf(left, right, p.(j := p.j + 1)) == RestOf(left, right, p)
  {
  }

  lemma {:induction false} StartGroupOk(left: seq<Tuple>, right: seq<Tuple>, p: Place)
    requires PlaceOk(left, right, p) && p.state.NeedCompare? && p.i < |left| && p.j < |right|
    requires left[p.i].key == right[p.j].key
    ensures var p' := p.(state := EmitMatches, m := p.j, key := left[p.i].key);
            PlaceOk(left, right, p') && RestOf(left, right, p') == RestOf(left, right, p)
  {
    JoinStep(left, p.i, right);
    SkipSmaller(left[p.i], right, p.j);
    hide Join, MatchesOf;
  }

  lemma {:induction false} EmitOk(left: seq<Tuple>, right: seq<Tuple>, p: Place)
    requires PlaceOk(left, right, p) && p.state.EmitMatches?
    ensures var more := p.j + 1 < |right| && right[p.j + 1].key == p.key;
            var p' := p.(state := if more then EmitMatches else AdvanceOuter, j := p.j + 1);
            PlaceOk(left, right, p') && Emits(RestOf(left, right, p), Some(Pair(left[p.i], right[p.j])),
                                              RestOf(left, right, p'))
  {
    hide Join, MatchesOf;
    var l, tail := left[p.i], right[p.j + 1..];
    MatchHead(l, right, p.j);
    var more := p.j + 1 < |right| && right[p.j + 1].key == p.key;
    if !more { NoMatches(l, tail); }
    var rest := Join(left[p.i + 1..], right);
    assert ([Pair(l, right[p.j])] + MatchesOf(l, tail) + rest)[1..] == MatchesOf(l, tail) + rest;
  }

  lemma {:induction false} MatchHead(l: Tuple, right: seq<Tuple>, j: nat)
    requires j < |right| && right[j].key == l.key
    ensures MatchesOf(l, right[j..]) == [Pair(l, right[j])] + MatchesOf(l, right[j + 1..])
  {
  }

  lemma {:induction false} AgainOk(left: seq<Tuple>, right: seq<Tuple>, p: Place)
    requires PlaceOk(left, right, p) && p.state.AdvanceOuter? && p.i + 1 < |left| && left[p.i + 1].key == p.key
    ensures var p' := p.(state := EmitMatches, i := p.i + 1, j := p.m);
            PlaceOk(left, right, p') && RestOf(left, right, p') == RestOf(left, right, p)
  {
    JoinStep(left, p.i + 1, right);
    SkipSmaller(left[p.i + 1], right, p.m);
    hide Join, MatchesOf;
  }

  lemma {:induction false} OnOk(left: seq<Tuple>, right: seq<Tuple>, p: Place)
    requires PlaceOk(left, right, p) && p.state.AdvanceOuter? && (p.i + 1 < |left| ==> left[p.i + 1].key != p.key)
    ensures var p' := p.(state := NeedCompare, i := p.i + 1);
            PlaceOk(left, right, p') && RestOf(left, right, p') == RestOf(left, right, p)
  {
  }

  class MergeJoin {
    const left: Source
    const right: Materialize
    var state: State
    var leftTuple: Option<Tuple>
    var rightTuple: Option<Tuple>
    var matchKey: int
    var markedRight: Tuple
    ghost var at: Place

    ghost predicate Valid()
      reads this, left, right
    {
      && PlaceOk(left.tuples, right.tuples, at) && state == at.state && at.i <= |left.tuples| && at.j <= |right.tuples|
      && OnIndex(left.tuples, at.i, leftTuple, left.pos) && OnIndex(right.tuples, at.j, rightTuple, right.pos)
      && (state.EmitMatches? || state.AdvanceOuter? ==>
            matchKey == at.key && at.m < |right.tuples| && markedRight == right.tuples[at.m] && right.mark == at.m + 1)
    }

    ghost function Rest(): seq<Pair>
      requires Valid()
      reads this, left, right
    {
      RestOf(left.tuples, right.tuples, at)
    }

    constructor (left: seq<Tuple>, right: seq<Tuple>)
      requires Ascending(left) && Ascending(right)
      ensures Valid() && fresh(this.left) && fresh(this.right) && Rest() == Join(left, right)
    {
      this.left := new Source(left);
      this.right := new Materialize(right);
      state, leftTuple, rightTuple, matchKey, markedRight := NeedCompare, None, None, 0, Tuple(0, 0);
      at := Place(NeedCompare, 0, 0, 0, 0);
      new;
      leftTuple := this.left.Next();
      rightTuple := this.right.Next();
      assert left[0..] == left;
    }

    /** The state machine: the next tuple of the nested-loop join. */
    method Next() returns (out: Option<Pair>)
      requires Valid()
      modifies this, left, right
      ensures Valid() && Emits(old(Rest()), out, Rest())
    {
      hide PlaceOk, RestOf;
      while true
        invariant Valid() && Rest() == old(Rest())
        decreases |left.tuples| - at.i,
            (if state.NeedCompare? then |right.tuples| - at.j + 2 else if state.EmitMatches? then 1 else 0)
      {
        match state {
          case Exhausted =>
            Finished(left.tuples, right.tuples, at);
            return None;
          case NeedCompare => Compare();
          case EmitMatches =>
            out := Emit();
            return;
          case AdvanceOuter => Advance();
        }
      }
    }

    method Compare()
      requires Valid() && state.NeedCompare?
      modifies this, left, right
      ensures Valid() && Rest() == old(Rest())
      ensures state.Exhausted? || state.EmitMatches? ==> at.i == old(at).i
      ensures state.NeedCompare? ==> (at.i == old(at).i && at.j > old(at).j) || at.i == old(at).i + 1
      ensures !state.AdvanceOuter?
    {
      hide PlaceOk, RestOf;
      ghost var ls, rs := left.tuples, right.tuples;
      if leftTuple.None? || rightTuple.None? {
        StopOk(ls, rs, at);
        Finished(ls, rs, at.(state := Exhausted));
        state, at := Exhausted, at.(state := Exhausted);
        return;
      }
      if leftTuple.value.key < rightTuple.value.key {
        SkipLeftOk(ls, rs, at);
        leftTuple := left.Next();
        at := at.(i := at.i + 1);
      } else if leftTuple.value.key > rightTuple.value.key {
        SkipRightOk(ls, rs, at);
        rightTuple := right.Next();
        at := at.(j := at.j + 1);
      } else {
        StartGroupOk(ls, rs, at);
        matchKey, markedRight := leftTuple.value.key, rightTuple.value;
        right.MarkPosition();
        state, at := EmitMatches, at.(state := EmitMatches, m := at.j, key := leftTuple.value.key);
      }
    }

    method Emit() returns (out: Option<Pair>)
      requires Valid() && state.EmitMatches?
      modifies this, right
      ensures Valid() && out.Some? && Emits(old(Rest()), out, Rest())
    {
      hide PlaceOk, RestOf, Emits;
      InsideGroup(left.tuples, right.tuples, at);
      EmitOk(left.tuples, right.tuples, at);
      out := Some(Pair(leftTuple.value, rightTuple.value));
      rightTuple := right.Next();
      if rightTuple.None? || rightTuple.value.key != matchKey { state := AdvanceOuter; }
      at := at.(state := state, j := at.j + 1);
    }

    method Advance()
      requires Valid() && state.AdvanceOuter?
      modifies this, left, right
      ensures Valid() && Rest() == old(Rest()) && at.i == old(at).i + 1 <= |left.tuples|
    {
      hide PlaceOk, RestOf;
      InsideGroup(left.tuples, right.tuples, at);
      leftTuple := left.Next();
      if leftTuple.Some? && leftTuple.value.key == matchKey {
        AgainOk(left.tuples, right.tuples, at);
        rightTuple := Some(markedRight);
        right.RestorePosition();
        state, at := EmitMatches, at.(state := EmitMatches, i := at.i + 1, j := at.m);
      } else {
        OnOk(left.tuples, right.tuples, at);
        state, at := NeedCompare, at.(state := NeedCompare, i := at.i + 1);
      }
    }
  }

  /** The current tuple is the one at index k, if there is one, and the child is behind it. */
  ghost predicate OnIndex(tuples: seq<Tuple>, k: nat, t: Option<Tuple>, pos: nat) {
    if k < |tuples| then t == Some(tuples[k]) && pos == k + 1 else t.None? && k == pos == |tuples|
  }

  lemma Finished(left: seq<Tuple>, right: seq<Tuple>, p: Place)
    requires PlaceOk(left, right, p) && p.state.Exhausted?
    ensures RestOf(left, right, p) == []
  {
  }

  lemma InsideGroup(left: seq<Tuple>, right: seq<Tuple>, p: Place)
    requires PlaceOk(left, right, p) && (p.state.EmitMatches? || p.state.AdvanceOuter?)
    ensures p.i < |left| && p.m < |right| && (p.state.EmitMatches? ==> p.j < |right|)
  {
  }

  /** ---------- Whole runs ---------- */

  method RunNestedLoop(left: seq<Tuple>, right: seq<Tuple>) returns (out: seq<Pair>)
    ensures out == Join(left, right)
  {
    hide Join, MatchesOf;
    var join := new NestedLoopJoin(left, right);
    out := [];
    while true
      invariant fresh(join) && fresh(join.left) && fresh(join.right) && join.Valid()
      invariant Join(left, right) == out + join.Rest()
      decreases |join.Rest()|
    {
      ghost var rest := join.Rest();
      var t := join.Next();
      if t.None? { return; }
      assert rest == [t.value] + join.Rest();
      out := out + [t.value];
    }
  }

  /** On sorted inputs the merge join produces exactly the sequence of the nested loop,
      duplicate groups included. */
  method RunMergeJoin(left: seq<Tuple>, right: seq<Tuple>) returns (out: seq<Pair>)
    requires Ascending(left) && Ascending(right)
    ensures out == Join(left, right)
  {
    hide Join, MatchesOf, PlaceOk, RestOf;
    var join := new MergeJoin(left, right);
    out := [];
    while true
      invariant fresh(join) && fresh(join.left) && fresh(join.right) && join.Valid()
      invariant Join(left, right) == out + join.Rest()
      decreases |join.Rest()|
    {
      ghost var rest := join.Rest();
      var t := join.Next();
      if t.None? { return; }
      assert rest == [t.value] + join.Rest();
      out := out + [t.value];
    }
  }
}

/** The plan interpreter: nodes run in order; on the first failure the undo actions of the completed nodes run
    in reverse order. */
module Operation {

  datatype Outcome<+S> = Outcome(state: S, ok: bool)

  /** A step of a plan. A `try` node may fail without failing the plan and has no undo. The undo actions are
      chosen when the node has succeeded; each is a change of state, whether its own call succeeds or not. */
  datatype Node<!S> = Node(try: bool, exec: S -> Outcome<S>, undo: S -> seq<S -> S>)

  /** Whether the plan succeeded, and every state on the way, the first and the last included. */
  datatype Ran<+S> = Ran(ok: bool, trace: seq<S>)

  function Last<S>(trace: seq<S>): S
    requires trace != []
  {
    trace[|trace| - 1]
  }

  /** The states after each action. */
  function Applied<S>(actions: seq<S -> S>, s: S): seq<S> {
    if actions == [] then [] else [actions[0](s)] + Applied(actions[1..], actions[0](s))
  }

  /** The meaning of a plan: a node wraps the rest of the plan, and undoes itself when the rest fails. */
  function Perform<S>(plan: seq<Node<S>>, s: S): (r: Ran<S>)
    ensures r.trace != [] && r.trace[0] == s
    decreases |plan|
  {
    if plan == [] then Ran(true, [s])
    else
      var node := plan[0];
      var o := node.exec(s);
      if !o.ok && !node.try then Ran(false, [s, o.state])
      else
        var rest := Perform(plan[1..], o.state);
        if rest.ok || node.try then Ran(rest.ok, [s] + rest.trace)
        else Ran(false, [s] + rest.trace + Applied(node.undo(o.state), Last(rest.trace)))
  }

  /** The states of a rollback over these undo groups, last group first. */
  ghost function Unwound<S>(undos: seq<seq<S -> S>>, s: S): seq<S> {
    if undos == [] then []
    else
      var states := Applied(undos[|undos| - 1], s);
      states + Unwound(undos[..|undos| - 1], Last([s] + states))
  }

  /** What is still to come from state s, with these undo groups pending. */
  ghost function Remaining<S>(plan: seq<Node<S>>, undos: seq<seq<S -> S>>, s: S): Ran<S> {
    var r := Perform(plan, s);
    Ran(r.ok, r.trace[1..] + if r.ok then [] else Unwound(undos, Last(r.trace)))
  }

  lemma RemainingAll<S>(plan: seq<Node<S>>, s: S)
    ensures var r := Remaining(plan, [], s);
            Perform(plan, s) == Ran(r.ok, [s] + r.trace)
    ensures plan == [] ==> forall undos :: Remaining(plan, undos, s) == Ran(true, [])
  {
    var r := Perform(plan, s);
    assert r.trace == [s] + r.trace[1..];
  }

  lemma RemainingFail<S>(plan: seq<Node<S>>, undos: seq<seq<S -> S>>, s: S)
    requires plan != [] && !plan[0].exec(s).ok && !plan[0].try
    ensures Remaining(plan, undos, s) == Ran(false, [plan[0].exec(s).state] + Unwound(undos, plan[0].exec(s).state))
  {
    assert Perform(plan, s).trace[1..] == [plan[0].exec(s).state];
  }

  /** The undo groups after this node has run. */
  function Pushed<S>(node: Node<S>, s: S, undos: seq<seq<S -> S>>): seq<seq<S -> S>> {
    if node.try || node.undo(s) == [] then undos else undos + [node.undo(s)]
  }

  lemma RemainingStep<S>(plan: seq<Node<S>>, undos: seq<seq<S -> S>>, s: S)
    requires plan != [] && (plan[0].exec(s).ok || plan[0].try)
    ensures var o := plan[0].exec(s);
            var next := Remaining(plan[1..], Pushed(plan[0], o.state, undos), o.state);
            Remaining(plan, undos, s) == Ran(next.ok, [o.state] + next.trace)
  {
    hide Unwound, Applied;
    var node := plan[0];
    var o := node.exec(s);
    var rest := Perform(plan[1..], o.state);
    assert rest.trace == [o.state] + rest.trace[1..];
    if rest.ok || node.try {
      assert Perform(plan, s) == Ran(rest.ok, [s] + rest.trace);
      assert ([s] + rest.trace)[1..] == rest.trace;
    } else {
      var states := Applied(node.undo(o.state), Last(rest.trace));
      assert Perform(plan, s) == Ran(false, [s] + rest.trace + states);
      assert ([s] + rest.trace + states)[1..] == [o.state] + rest.trace[1..] + states;
      assert Last([s] + rest.trace + states) == Last([Last(rest.trace)] + states);
      PushedUnwinds(node, o.state, undos, Last(rest.trace));
    }
  }

  lemma PushedUnwinds<S>(node: Node<S>, s: S, undos: seq<seq<S -> S>>, from: S)
    requires !node.try
    ensures var states := Applied(node.undo(s), from);
            Unwound(Pushed(node, s, undos), from) == states + Unwound(undos, Last([from] + states))
  {
    assert (undos + [node.undo(s)])[..|undos|] == undos;
    if node.undo(s) == [] {
      assert [from] + Applied(node.undo(s), from) == [from];
    }
  }

  /** interpret, then executeRollback on a failure. */
  method Run<S>(plan: seq<Node<S>>, start: S) returns (s: S, ok: bool, ghost trace: seq<S>)
    ensures ok == Perform(plan, start).ok && s == Last(Perform(plan, start).trace)
    ensures trace == Perform(plan, start).trace
  {
    hide Perform, Remaining, Unwound;
    RemainingAll(plan, start);
    s, ok, trace := start, true, [start];
    var undos: seq<seq<S -> S>> := [];
    var i := 0;
    assert plan[0..] == plan;
    while i < |plan| && ok
      invariant 0 <= i <= |plan| && trace != [] && s == Last(trace)
      invariant ok ==> var r := Remaining(plan[i..], undos, s);
                       Perform(plan, start) == Ran(r.ok, trace + r.trace)
      invariant !ok ==> Perform(plan, start) == Ran(false, trace + Unwound(undos, s))
    {
      ghost var rest := plan[i..];
      assert rest[0] == plan[i] && rest[1..] == plan[i + 1..];
      var o := plan[i].exec(s);
      if o.ok || plan[i].try {
        RemainingStep(rest, undos, s);
        undos := Pushed(plan[i], o.state, undos);
      } else {
        RemainingFail(rest, undos, s);
        ok := false;
      }
      s, trace := o.state, trace + [o.state];
      i := i + 1;
    }
    if !ok {
      s, trace := RollBack(undos, s, trace);
    } else {
      assert plan[i..] == [];
      RemainingAll(plan[i..], s);
    }
  }

  lemma UnwoundLast<S>(undos: seq<seq<S -> S>>, s: S)
    ensures undos == [] ==> Unwound(undos, s) == []
    ensures undos != [] ==>
              var states := Applied(undos[|undos| - 1], s);
              Unwound(undos, s) == states + Unwound(undos[..|undos| - 1], Last([s] + states))
  {}

  method RollBack<S>(undos: seq<seq<S -> S>>, from: S, ghost before: seq<S>) returns (s: S, ghost trace: seq<S>)
    requires before != [] && from == Last(before)
    ensures trace == before + Unwound(undos, from) && s == Last(trace)
  {
    hide Unwound, Applied;
    s, trace := from, before;
    var n := |undos|;
    assert undos[..n] == undos;
    while n > 0
      invariant 0 <= n <= |undos| && trace != [] && s == Last(trace)
      invariant before + Unwound(undos, from) == trace + Unwound(undos[..n], s)
    {
      n := n - 1;
      ghost var at := s;
      UnwoundLast(undos[..n + 1], s);
      assert undos[..n + 1][..n] == undos[..n] && undos[..n + 1][n] == undos[n];
      s, trace := Apply(undos[n], s, trace);
      assert Last([at] + Applied(undos[n], at)) == s;
    }
    UnwoundLast(undos[..0], s);
  }

  method Apply<S>(actions: seq<S -> S>, from: S, ghost before: seq<S>) returns (s: S, ghost trace: seq<S>)
    requires before != [] && from == Last(before)
    ensures trace == before + Applied(actions, from) && s == Last(trace)
  {
    s, trace := from, before;
    for i := 0 to |actions|
      invariant trace != [] && s == Last(trace)
      invariant before + Applied(actions, from) == trace + Applied(actions[i..], s)
    {
      assert actions[i..][0] == actions[i] && actions[i..][1..] == actions[i + 1..];
      s := actions[i](s);
      trace := trace + [s];
    }
  }

  /** From any state where `inv` holds, the node keeps `inv`; a failure (or a `try`) changes nothing that `obs`
      sees, and the undo takes back what a success changed. */
  ghost predicate Reversible<S(!new), T(!new)>(node: Node<S>, inv: S -> bool, obs: S -> T) {
    && (forall s :: inv(s) ==> inv(node.exec(s).state))
    && (forall s :: inv(s) && (node.try || !node.exec(s).ok) ==> obs(node.exec(s).state) == obs(s))
    && (forall s, t :: inv(s) && node.exec(s).ok && !node.try && obs(t) == obs(node.exec(s).state) ==>
          obs(Last([t] + Applied(node.undo(node.exec(s).state), t))) == obs(s))
  }

  /** A failed plan of reversible nodes leaves no trace of its completed steps. */
  lemma {:induction false} FailureRestores<S(!new), T(!new)>(plan: seq<Node<S>>, s: S, inv: S -> bool, obs: S -> T)
    requires inv(s) && !Perform(plan, s).ok
    requires forall node :: node in plan ==> Reversible(node, inv, obs)
    ensures obs(Last(Perform(plan, s).trace)) == obs(s)
    decreases |plan|
  {
    var node := plan[0];
    assert Reversible(node, inv, obs);
    var o := node.exec(s);
    if o.ok || node.try {
      FailureRestores(plan[1..], o.state, inv, obs);
      var rest := Perform(plan[1..], o.state);
      if !node.try {
        var t := Last(rest.trace);
        var states := Applied(node.undo(o.state), t);
        assert Last([s] + rest.trace + states) == Last([t] + states);
      }
    }
  }
}

/**
 * The scope-exit guard `on_exit_guard` and the LIFO unwinding of a stack of guards that C++ performs when
 * the guards' enclosing scope is left, normally or by an exception.
 */
module ScopeGuard {
  import opened Wrappers

  /**
   * A guard owns one release action. It is armed on construction; destruction runs the action when armed
   * and disarms the guard first. Copy construction, copy assignment, move assignment and default
   * construction are deleted in the source, so the only members are the two constructors and the destructor.
   * Running the action is modelled by handing it back to the caller of `Destroy`, which performs it.
   */
  class OnExitGuard<A> {
    var executeOnExit: bool
    var onExit: A
    /** How many times this guard has run its action. */
    ghost var fired: nat

    /** An armed guard has not fired yet, and no guard fires more than once. */
    ghost predicate Valid()
      reads this
    {
      fired <= 1 && (executeOnExit ==> fired == 0)
    }

    /** `on_exit_guard (TOnExit on_exit)`: a fresh guard is armed and has not fired. */
    constructor (onExit: A)
      ensures Valid()
      ensures executeOnExit && fired == 0 && this.onExit == onExit
    {
      this.executeOnExit := true;
      this.onExit := onExit;
      fired := 0;
    }

    /**
     * `on_exit_guard (on_exit_guard && oeg)`: the new guard takes over the source's armed flag and action,
     * and the source is disarmed, so between them the action is still owed at most once.
     */
    constructor Move(oeg: OnExitGuard<A>)
      requires oeg.Valid()
      modifies oeg
      ensures Valid() && oeg.Valid()
      ensures executeOnExit == old(oeg.executeOnExit) && onExit == old(oeg.onExit) && fired == 0
      ensures !oeg.executeOnExit && oeg.onExit == old(oeg.onExit) && oeg.fired == old(oeg.fired)
      ensures Owed(this) + Owed(oeg) == old(Owed(oeg))
    {
      this.executeOnExit := oeg.executeOnExit;
      this.onExit := oeg.onExit;
      fired := 0;
      oeg.executeOnExit := false;
    }

    /**
     * `~on_exit_guard ()`: when armed, clears the flag and then runs the action, returned here as
     * `Some(onExit)`; when not armed, does nothing. A second destruction therefore never fires again.
     */
    method Destroy() returns (ran: Option<A>)
      requires Valid()
      modifies this
      ensures Valid() && !executeOnExit && onExit == old(onExit)
      ensures old(executeOnExit) ==> ran == Some(onExit) && fired == old(fired) + 1 == 1
      ensures !old(executeOnExit) ==> ran == None && fired == old(fired)
    {
      if executeOnExit {
        executeOnExit := false;
        fired := fired + 1;
        ran := Some(onExit);
      } else {
        ran := None;
      }
    }
  }

  /** The number of times a guard will still run its action when destroyed (0 or 1). */
  ghost function Owed<A>(g: OnExitGuard<A>): nat
    reads g
  {
    if g.executeOnExit then 1 else 0
  }

  /** `on_exit (action)`: builds an armed guard around the action. */
  method OnExit<A>(action: A) returns (g: OnExitGuard<A>)
    ensures fresh(g) && g.Valid()
    ensures g.executeOnExit && g.fired == 0 && g.onExit == action
  {
    g := new OnExitGuard(action);
  }

  /**
   * `auto name = on_exit (action);` without guaranteed copy elision: `on_exit` returns a temporary guard,
   * `name` is move-constructed from it, the temporary is destroyed at the end of the declaration and `name`
   * at the end of its scope. The temporary's destruction runs nothing, so the action runs exactly once.
   */
  method DeclareByMove<A>(action: A) returns (ran: seq<A>)
    ensures ran == [action]
  {
    var temporary := OnExit(action);
    var name := new OnExitGuard.Move(temporary);
    var fromTemporary := temporary.Destroy();
    var fromName := name.Destroy();
    ran := [];
    match fromTemporary {
      case Some(a) => ran := ran + [a];
      case None =>
    }
    match fromName {
      case Some(a) => ran := ran + [a];
      case None =>
    }
    assert temporary.fired + name.fired == 1;
  }

  /** The order in which guards declared in the order `s` are destroyed: last declared, first destroyed. */
  function Reverse<T>(s: seq<T>): (r: seq<T>)
    ensures |r| == |s|
  {
    if s == [] then [] else Reverse(s[1..]) + [s[0]]
  }

  lemma {:induction false} ReverseAt<T>(s: seq<T>, k: nat)
    requires k < |s|
    ensures Reverse(s)[k] == s[|s| - 1 - k]
  {
    if k < |s| - 1 {
      ReverseAt(s[1..], k);
    }
  }

  /** Reversal drops nothing and adds nothing. */
  lemma {:induction false} ReverseSameElements<T>(s: seq<T>)
    ensures multiset(Reverse(s)) == multiset(s)
  {
    if s != [] {
      ReverseSameElements(s[1..]);
      assert s == [s[0]] + s[1..];
    }
  }

  /** A sequence without repetitions holds each of its elements exactly once. */
  lemma {:induction false} DistinctCounts<T>(s: seq<T>)
    requires forall i, j :: 0 <= i < j < |s| ==> s[i] != s[j]
    ensures forall x :: multiset(s)[x] == if x in s then 1 else 0
  {
    if s != [] {
      DistinctCounts(s[1..]);
      assert s == [s[0]] + s[1..];
      assert forall j :: 0 <= j < |s[1..]| ==> s[1..][j] != s[0];
    }
  }

  /** If `x` was registered before `y`, then `y` is released before `x`. */
  lemma {:induction false} ReverseSwapsOrder<T>(s: seq<T>, i: nat, j: nat)
    requires i < j < |s|
    ensures Reverse(s)[|s| - 1 - j] == s[j] && Reverse(s)[|s| - 1 - i] == s[i]
    ensures |s| - 1 - j < |s| - 1 - i
  {
    ReverseAt(s, |s| - 1 - j);
    ReverseAt(s, |s| - 1 - i);
  }

  /** The armed guards on a stack, with the actions they own, each distinct and not yet fired. */
  ghost predicate ArmedStack<A>(stack: seq<OnExitGuard<A>>, actions: seq<A>)
    reads set g | g in stack
  {
    && |stack| == |actions|
    && (forall i, j :: 0 <= i < j < |stack| ==> stack[i] != stack[j])
    && (forall i :: 0 <= i < |stack| ==>
          stack[i].Valid() && stack[i].executeOnExit && stack[i].fired == 0 && stack[i].onExit == actions[i])
  }

  /**
   * Declaring one more guard in the scope, as `auto name = on_exit (action);` does: the guards already
   * declared are untouched and the new, armed guard goes on top.
   */
  method Declare<A>(stack: seq<OnExitGuard<A>>, ghost actions: seq<A>, action: A)
    returns (stack': seq<OnExitGuard<A>>)
    requires ArmedStack(stack, actions)
    ensures ArmedStack(stack', actions + [action])
    ensures |stack'| == |stack| + 1 && stack' == stack + [stack'[|stack|]] && fresh(stack'[|stack|])
  {
    var g := OnExit(action);
    stack' := stack + [g];
  }

  /**
   * Leaving the scope of the guards in `stack` (declared in that order): every guard is destroyed, last
   * declared first. Each runs its action exactly once, and the actions run in reverse declaration order.
   */
  method Unwind<A>(stack: seq<OnExitGuard<A>>, ghost actions: seq<A>) returns (ran: seq<A>)
    requires ArmedStack(stack, actions)
    modifies set g | g in stack
    ensures ran == Reverse(actions)
    ensures forall i :: 0 <= i < |stack| ==>
      stack[i].Valid() && !stack[i].executeOnExit && stack[i].fired == 1 && stack[i].onExit == actions[i]
  {
    var n := |stack|;
    ran := [];
    while n > 0
      invariant 0 <= n <= |stack|
      invariant ran == Reverse(actions[n..])
      invariant forall i :: 0 <= i < n ==>
        stack[i].Valid() && stack[i].executeOnExit && stack[i].fired == 0 && stack[i].onExit == actions[i]
      invariant forall i :: n <= i < |stack| ==>
        stack[i].Valid() && !stack[i].executeOnExit && stack[i].fired == 1 && stack[i].onExit == actions[i]
    {
      n := n - 1;
      var r := stack[n].Destroy();
      assert actions[n..] == [actions[n]] + actions[n + 1..];
      ran := ran + [r.value];
    }
  }
}

/** Client code that uses only the contracts of the model, in the manner
    of the repository's tests: values held along a chain, cancellation
    down a parent, child and grandchild, and the timeout race. */
module Scenarios {
  import opened ValueChain
  import opened Cancellation
  import opened Timeout

  method HoldsValues()
  {
    var ctx: Ctx<string, int> := Background;
    assert Lookup(ctx, "prop") == None;
    var newCtx := WithValue(ctx, "test", 1);
    var anotherCtx := WithValue(newCtx, "other", 123);
    assert Lookup(newCtx, "test") == Some(1);
    assert Lookup(anotherCtx, "test") == Some(1);
    assert Lookup(anotherCtx, "other") == Some(123);
    var shadowed := WithValue(anotherCtx, "test", 2);
    assert Lookup(shadowed, "test") == Some(2) && Lookup(anotherCtx, "test") == Some(1);
  }

  method CancelsDownward()
  {
    var promises := new Promises();
    var root: Chain<string, int> := Background;
    var ctx, abort := promises.WithAbort(root);
    var child, abortChild := promises.WithAbort(WithValue(ctx, User("test"), Data(1)));
    var grandchild, abortGrandchild := promises.WithAbort(child);
    assert Lookup(grandchild, User("test")) == Some(Data(1));
    assert promises.parent == [None, Some(abort), Some(abortChild)];

    // The child's own abort settles it and the grandchild, not the parent.
    promises.Abort(abortChild, Error("child"));
    assert Descends(promises.parent, abortGrandchild, abortChild);
    assert promises.reason == [None, Some(Error("child")), Some(Error("child"))];

    // The parent's abort settles the parent only: the others settled first.
    promises.Abort(abort, Error("parent"));
    assert promises.reason[abort] == Some(Error("parent"));
    assert promises.reason[abortChild] == Some(Error("child"));

    // A context without an abort promise falls back to one that never settles.
    var fallback := promises.UseAbort(root);
    assert promises.reason[fallback] == None && !promises.rejectable[fallback];
  }

  method ParentCancelsDescendants()
  {
    var promises := new Promises();
    var root: Chain<string, int> := Background;
    var ctx, abort := promises.WithAbort(root);
    var child, abortChild := promises.WithAbort(WithValue(ctx, User("test"), Data(1)));
    var grandchild, abortGrandchild := promises.WithAbort(child);

    // The parent's abort settles the child and the grandchild with its reason.
    promises.Abort(abort, Error("parent"));
    assert Descends(promises.parent, abortChild, abort) && Descends(promises.parent, abortGrandchild, abort);
    assert promises.reason == [Some(Error("parent")), Some(Error("parent")), Some(Error("parent"))];

    // The same, stated on contexts: the grandchild is derived from the parent.
    var path := [(User("test"), Data(1)), (AbortKey, Signal(abortChild)), (AbortKey, Signal(abortGrandchild))];
    assert Extend(child, path[1..][1..]) == grandchild;
    assert Extend(WithValue(ctx, User("test"), Data(1)), path[1..]) == grandchild;
    assert Extend(ctx, path) == grandchild;
    AncestorCancelsContext(promises.reason, promises.dependents, promises.rejectable, promises.parent, ctx, path);
    assert promises.reason[Nearest(grandchild).value].Some?;

    // A later abort of the child keeps the parent's reason.
    promises.Abort(abortChild, Error("child"));
    assert promises.reason[abortChild] == Some(Error("parent"));
  }

  method TimeoutRace()
  {
    var promises := new Promises();
    var root: Chain<string, int> := Background;
    var ctx, timer := WithTimeout(promises, root);
    timer.Abort(Error("manual"));
    timer.Fire();
    assert promises.reason[timer.cell] == Some(Error("manual"));

    var ctx2, timer2 := WithTimeout(promises, root);
    timer2.Fire();
    timer2.Abort(Error("manual"));
    assert promises.reason[timer2.cell] == Some(TIMED_OUT);
  }
}

/**
 * `ProxyFactory`: the interceptor that brackets a reflective call in a
 * transaction, and the two proxy kinds, which route every call through it
 * with the flag and the target fixed when the proxy was made. The
 * transaction manager and the reflective call are fakes that append to one
 * shared call log.
 */
module Proxies {
  import opened Values

  datatype ProxyKind = JdkProxy | CglibProxy

  /** One call on the transaction manager or on the target, in the order made. */
  datatype TxEvent = Begin | Invoke(target: Ref, name: string) | Commit | Rollback

  /** What each transaction-manager operation throws, if anything. */
  datatype TxFaults = TxFaults(begin: Option<Exc>, commit: Option<Exc>, rollback: Option<Exc>)

  /** The calls one interception makes, and how it ends. */
  datatype Interception = Interception(events: seq<TxEvent>, result: Outcome)

  /** `Method.invoke`: a value comes back as is; whatever the method throws comes back wrapped. */
  function Reflected(call: Outcome): (r: Outcome)
    ensures r.Returned? <==> call.Returned?
    ensures call.Returned? ==> r == call
    ensures call.Threw? ==> r.error == InvocationTarget(call.error) && IsException(r.error)
  {
    match call
    case Returned(_) => call
    case Threw(e) => Threw(InvocationTarget(e))
  }

  /**
   * `catch (Exception e) { transactionManager.rollback(); throw e; }`, entered
   * after `events` with `e` thrown: an exception is rolled back and rethrown
   * unless the rollback throws in its place; an `Error` is not caught.
   */
  function Catch(f: TxFaults, events: seq<TxEvent>, e: Exc): (r: Interception)
    ensures r.result.Threw?
    ensures IsException(e) ==> r.events == events + [Rollback] && r.result.error == (if f.rollback.Some? then f.rollback.value else e)
    ensures !IsException(e) ==> r == Interception(events, Threw(e))
  {
    if !IsException(e) then Interception(events, Threw(e))
    else Interception(events + [Rollback], Threw(if f.rollback.Some? then f.rollback.value else e))
  }

  /**
   * `dealWithMethodProxy`. `tm` is the injected transaction manager (`None`
   * when it was left null) and `call` what the target method itself does.
   */
  function Intercepted(tm: Option<TxFaults>, isMethodProxy: bool, target: Ref, m: string, call: Outcome): (r: Interception)
    ensures !isMethodProxy ==> r.events == [Invoke(target, m)]
    ensures isMethodProxy && r.events != [] ==> r.events[0] == Begin
    ensures isMethodProxy && tm.None? ==> r == Interception([], Threw(NullPointer))
    ensures r.result.Returned? ==> r.result == call
    ensures r.result.Returned? ==> Invoke(target, m) in r.events && Rollback !in r.events
  {
    if !isMethodProxy then Interception([Invoke(target, m)], Reflected(call))
    else if tm.None? then Interception([], Threw(NullPointer))
    else
      var f := tm.value;
      if f.begin.Some? then Catch(f, [Begin], f.begin.value)
      else
        var invoked := Reflected(call);
        if invoked.Threw? then Catch(f, [Begin, Invoke(target, m)], invoked.error)
        else if f.commit.Some? then Catch(f, [Begin, Invoke(target, m), Commit], f.commit.value)
        else Interception([Begin, Invoke(target, m), Commit], invoked)
  }

  // ---------------------------------------------------------------------
  // What the interceptor promises.
  // ---------------------------------------------------------------------

  /** Flag off: the call goes straight to the target, and no transaction operation is made. */
  lemma PlainCallForwards(tm: Option<TxFaults>, target: Ref, m: string, call: Outcome)
    ensures var r := Intercepted(tm, false, target, m, call);
      r.events == [Invoke(target, m)] && (call.Returned? ==> r.result == call)
      && (call.Threw? ==> r.result == Threw(InvocationTarget(call.error)))
  {
  }

  /**
   * Flag on: the call returns exactly when the manager is there, begin and
   * commit succeed and the target returns; it then returns the target's value
   * after exactly begin, invoke, commit.
   */
  lemma TransactionalSuccess(tm: Option<TxFaults>, target: Ref, m: string, call: Outcome)
    ensures var r := Intercepted(tm, true, target, m, call);
      r.result.Returned? <==> tm.Some? && tm.value.begin.None? && tm.value.commit.None? && call.Returned?
    ensures var r := Intercepted(tm, true, target, m, call);
      r.result.Returned? ==> r.result == call && r.events == [Begin, Invoke(target, m), Commit]
  {
  }

  /**
   * Flag on, the target throws: begin, invoke, rollback, no commit, and the
   * `InvocationTargetException` is rethrown unless the rollback throws.
   */
  lemma TransactionalFailure(f: TxFaults, target: Ref, m: string, e: Exc)
    requires f.begin.None?
    ensures var r := Intercepted(Some(f), true, target, m, Threw(e));
      r.events == [Begin, Invoke(target, m), Rollback]
      && r.result == Threw(if f.rollback.Some? then f.rollback.value else InvocationTarget(e))
  {
  }

  /**
   * Begin and commit sit in the same `try` as the call: an exception from
   * either is rolled back and rethrown (or replaced by the rollback's own).
   */
  lemma BeginOrCommitFailure(f: TxFaults, target: Ref, m: string, call: Outcome)
    requires f.begin.Some? && IsException(f.begin.value)
    ensures var r := Intercepted(Some(f), true, target, m, call);
      r.events == [Begin, Rollback] && r.result == Threw(if f.rollback.Some? then f.rollback.value else f.begin.value)
    ensures var g := f.(begin := None);
      g.commit.Some? && IsException(g.commit.value) && call.Returned? ==>
      var r := Intercepted(Some(g), true, target, m, call);
      r.events == [Begin, Invoke(target, m), Commit, Rollback]
      && r.result == Threw(if g.rollback.Some? then g.rollback.value else g.commit.value)
  {
  }

  /** A rollback that throws replaces whatever exception caused it. */
  lemma RollbackFailureMasks(f: TxFaults, target: Ref, m: string, call: Outcome)
    requires f.rollback.Some?
    ensures var r := Intercepted(Some(f), true, target, m, call);
      Rollback in r.events ==> r.result == Threw(f.rollback.value)
  {
  }

  /**
   * Every trace has the bracket's shape: with the flag on it starts with
   * begin (or is empty when the manager is null), commit and rollback never
   * both happen unless commit itself threw, rollback is always last, and the
   * target is invoked at most once.
   */
  lemma {:induction false} TraceShape(tm: Option<TxFaults>, flag: bool, target: Ref, m: string, call: Outcome)
    ensures var r := Intercepted(tm, flag, target, m, call);
      && |r.events| <= 4
      && (flag ==> r.events == [] || r.events[0] == Begin)
      && (Rollback in r.events ==> r.events[|r.events| - 1] == Rollback && r.result.Threw?)
      && (Commit in r.events && Rollback in r.events ==> tm.Some? && tm.value.commit.Some?)
      && (forall i, j :: 0 <= i < j < |r.events| && r.events[i].Invoke? ==> !r.events[j].Invoke?)
  {
    var r := Intercepted(tm, flag, target, m, call);
    if flag && tm.Some? {
      var f := tm.value;
      var e := Invoke(target, m);
      if f.begin.Some? {
        assert r.events == [Begin] || r.events == [Begin, Rollback];
      } else if Reflected(call).Threw? {
        assert r.events == [Begin, e, Rollback];
      } else if f.commit.Some? {
        assert r.events == [Begin, e, Commit] || r.events == [Begin, e, Commit, Rollback];
      }
    }
  }

  /**
   * The interceptor never looks at which method is called: whether a call is
   * bracketed depends on the proxy's flag and the manager alone, so one
   * `@MyTransactional` method makes every method of the proxy transactional,
   * and a flag left false makes none of them so.
   */
  lemma {:induction false} FlagAppliesToEveryMethod(tm: Option<TxFaults>, flag: bool, target: Ref, m1: string, m2: string, c1: Outcome, c2: Outcome)
    ensures (Begin in Intercepted(tm, flag, target, m1, c1).events) == (flag && tm.Some?)
    ensures (Begin in Intercepted(tm, flag, target, m1, c1).events) == (Begin in Intercepted(tm, flag, target, m2, c2).events)
  {
    TraceShape(tm, flag, target, m1, c1);
    TraceShape(tm, flag, target, m2, c2);
  }

  // ---------------------------------------------------------------------
  // The objects.
  // ---------------------------------------------------------------------

  /** The shared trace of transaction-manager and target calls. */
  class CallLog {
    var events: seq<TxEvent>

    constructor()
      ensures events == []
    {
      events := [];
    }
  }

  /** A transaction manager that records each call and throws the configured fault. */
  class FakeTransactionManager {
    const log: CallLog
    const faults: TxFaults

    constructor(log: CallLog, faults: TxFaults)
      ensures this.log == log && this.faults == faults
    {
      this.log := log;
      this.faults := faults;
    }

    method BeginTransaction() returns (thrown: Option<Exc>)
      modifies log
      ensures log.events == old(log.events) + [TxEvent.Begin] && thrown == faults.begin
    {
      log.events := log.events + [TxEvent.Begin];
      thrown := faults.begin;
    }

    method Commit() returns (thrown: Option<Exc>)
      modifies log
      ensures log.events == old(log.events) + [TxEvent.Commit] && thrown == faults.commit
    {
      log.events := log.events + [TxEvent.Commit];
      thrown := faults.commit;
    }

    method Rollback() returns (thrown: Option<Exc>)
      modifies log
      ensures log.events == old(log.events) + [TxEvent.Rollback] && thrown == faults.rollback
    {
      log.events := log.events + [TxEvent.Rollback];
      thrown := faults.rollback;
    }
  }

  /** `Method.invoke` on container objects whose methods behave as `code` says. */
  class FakeReflection {
    const log: CallLog
    const code: (Ref, string, seq<Value>) -> Outcome

    constructor(log: CallLog, code: (Ref, string, seq<Value>) -> Outcome)
      ensures this.log == log && this.code == code
    {
      this.log := log;
      this.code := code;
    }

    method Invoke(target: Ref, m: string, args: seq<Value>) returns (o: Outcome)
      modifies log
      ensures log.events == old(log.events) + [TxEvent.Invoke(target, m)] && o == Reflected(code(target, m, args))
    {
      log.events := log.events + [TxEvent.Invoke(target, m)];
      o := Reflected(code(target, m, args));
    }
  }

  class ProxyFactory {
    /** The `@MyAutowired` transaction manager; null when nothing was bound to its name. */
    const transactionManager: FakeTransactionManager?
    const reflection: FakeReflection

    /** The manager and the reflective calls write to one trace. */
    ghost predicate Valid() {
      transactionManager != null ==> transactionManager.log == reflection.log
    }

    function Manager(): Option<TxFaults> {
      if transactionManager == null then None else Some(transactionManager.faults)
    }

    constructor(transactionManager: FakeTransactionManager?, reflection: FakeReflection)
      requires transactionManager != null ==> transactionManager.log == reflection.log
      ensures this.transactionManager == transactionManager && this.reflection == reflection && Valid()
    {
      this.transactionManager := transactionManager;
      this.reflection := reflection;
    }

    /** The `catch` block: roll back an exception and rethrow it, or the rollback's own. */
    method RollbackAndRethrow(e: Exc) returns (o: Outcome)
      requires Valid() && transactionManager != null
      modifies reflection.log
      ensures var r := Catch(transactionManager.faults, old(reflection.log.events), e);
        reflection.log.events == r.events && o == r.result
    {
      if !IsException(e) {
        o := Threw(e);
        return;
      }
      var thrown := transactionManager.Rollback();
      o := Threw(if thrown.Some? then thrown.value else e);
    }

    /** `dealWithMethodProxy`: appends the interception's calls to the trace and ends as it does. */
    method DealWithMethodProxy(m: string, args: seq<Value>, isMethodProxy: bool, target: Ref) returns (o: Outcome)
      requires Valid()
      modifies reflection.log
      ensures var r := Intercepted(Manager(), isMethodProxy, target, m, reflection.code(target, m, args));
        reflection.log.events == old(reflection.log.events) + r.events && o == r.result
    {
      if !isMethodProxy {
        o := reflection.Invoke(target, m, args);
        return;
      }
      if transactionManager == null {
        o := Threw(NullPointer);
        return;
      }
      var thrown := transactionManager.BeginTransaction();
      if thrown.Some? {
        o := RollbackAndRethrow(thrown.value);
        return;
      }
      var result := reflection.Invoke(target, m, args);
      if result.Threw? {
        o := RollbackAndRethrow(result.error);
        return;
      }
      thrown := transactionManager.Commit();
      if thrown.Some? {
        o := RollbackAndRethrow(thrown.value);
        return;
      }
      o := result;
    }

    /** `getJdkProxy`: a new proxy implementing the target's interfaces. */
    method GetJdkProxy(target: Ref, isMethodProxy: bool) returns (p: Proxy)
      ensures fresh(p) && p.kind == JdkProxy && p.isMethodProxy == isMethodProxy && p.target == target && p.factory == this
    {
      p := new Proxy(JdkProxy, isMethodProxy, target, this);
    }

    /** `getCglibProxy`: a new proxy subclassing the target's class. */
    method GetCglibProxy(target: Ref, isMethodProxy: bool) returns (p: Proxy)
      ensures fresh(p) && p.kind == CglibProxy && p.isMethodProxy == isMethodProxy && p.target == target && p.factory == this
    {
      p := new Proxy(CglibProxy, isMethodProxy, target, this);
    }
  }

  /** A generated proxy: the flag and the target are captured when it is made. */
  class Proxy {
    const kind: ProxyKind
    const isMethodProxy: bool
    const target: Ref
    const factory: ProxyFactory

    constructor(kind: ProxyKind, isMethodProxy: bool, target: Ref, factory: ProxyFactory)
      ensures this.kind == kind && this.isMethodProxy == isMethodProxy && this.target == target && this.factory == factory
    {
      this.kind := kind;
      this.isMethodProxy := isMethodProxy;
      this.target := target;
      this.factory := factory;
    }

    /** Any method called on the proxy, of either kind, goes through the interceptor. */
    method Call(m: string, args: seq<Value>) returns (o: Outcome)
      requires factory.Valid()
      modifies factory.reflection.log
      ensures var r := Intercepted(factory.Manager(), isMethodProxy, target, m, factory.reflection.code(target, m, args));
        factory.reflection.log.events == old(factory.reflection.log.events) + r.events && o == r.result
    {
      o := factory.DealWithMethodProxy(m, args, isMethodProxy, target);
    }
  }
}

/**
 * `BeanFactory`: the singleton map and the objects it holds, filled in place
 * by the bootstrap passes, and `getBean`, which decides on every call
 * whether to hand out the object itself or a new transactional proxy.
 */
module Factory {
  import opened Values
  import opened BeanNames
  import opened Descriptors
  import opened Registry
  import opened Proxies

  /** The class the entry "proxyFactory" is cast to. */
  const PROXY_FACTORY_CLASS := "com.athena.factory.ProxyFactory"

  /** The name of the entry `dealWithProxyBean` takes the proxy factory from. */
  const PROXY_FACTORY_NAME := "proxyFactory"

  /** The message of the exception `getBean` throws for an empty name. */
  const EMPTY_NAME_MESSAGE := "需要获取的对象不能为空"

  /** What `getBean` hands out, up to the identity of a new proxy. */
  datatype Exposure = Absent | Target(ref: Ref) | Wrapped(kind: ProxyKind, isMethodProxy: bool, target: Ref)

  /**
   * `dealWithProxyBean`: the cast of the "proxyFactory" entry comes first;
   * an object whose class and declared methods carry no `@MyTransactional`
   * is handed out as is; otherwise a proxy of the kind the class's
   * interfaces call for, whose flag is the method-level marking alone.
   */
  function ProxyDecision(st: Store, target: Ref): (r: Result<Exposure>)
    requires st.Valid() && target < |st.heap|
    ensures r == Err(ClassCast) <==> !CastSucceeds(st)
    ensures var ty := st.heap[target].ty;
      r == Ok(Target(target)) <==> CastSucceeds(st) && !ClassTransactional(ty) && !MethodTransactional(ty)
    ensures var ty := st.heap[target].ty;
      r == Err(NullPointer) <==> PROXY_FACTORY_NAME !in st.beans && (ClassTransactional(ty) || MethodTransactional(ty))
    ensures var ty := st.heap[target].ty;
      r.Ok? && r.value.Wrapped? ==>
        r.value.target == target && (r.value.kind == JdkProxy <==> ty.hasInterfaces) && r.value.isMethodProxy == MethodTransactional(ty)
    ensures r.Ok? ==> r.value.Target? || r.value.Wrapped?
  {
    var ty := st.heap[target].ty;
    if PROXY_FACTORY_NAME in st.beans && st.heap[st.beans[PROXY_FACTORY_NAME]].cls != PROXY_FACTORY_CLASS then Err(ClassCast)
    else if !ClassTransactional(ty) && !MethodTransactional(ty) then Ok(Target(target))
    else if PROXY_FACTORY_NAME !in st.beans then Err(NullPointer)
    else Ok(Wrapped(if ty.hasInterfaces then JdkProxy else CglibProxy, MethodTransactional(ty), target))
  }

  /** `getBean` on a store. */
  function Exposing(st: Store, name: string): (r: Result<Exposure>)
    requires st.Valid()
    ensures r == Err(RuntimeError(EMPTY_NAME_MESSAGE)) <==> name == ""
    ensures r == Ok(Absent) <==> name != "" && name !in st.beans
    ensures r.Ok? && r.value.Target? ==> name in st.beans && r.value.ref == st.beans[name]
    ensures r.Ok? && r.value.Wrapped? ==> name in st.beans && r.value.target == st.beans[name]
  {
    if name == "" then Err(RuntimeError(EMPTY_NAME_MESSAGE))
    else if name !in st.beans then Ok(Absent)
    else ProxyDecision(st, st.beans[name])
  }

  /** The "proxyFactory" entry, when bound, is an object of `ProxyFactory`. */
  predicate CastSucceeds(st: Store)
    requires st.Valid()
  {
    PROXY_FACTORY_NAME in st.beans ==> st.heap[st.beans[PROXY_FACTORY_NAME]].cls == PROXY_FACTORY_CLASS
  }

  /**
   * `getBean` throws for an empty name, returns null for an unbound one, and
   * otherwise hands out the bound object itself exactly when neither its
   * class nor any declared method carries `@MyTransactional`.
   */
  lemma GetBeanOutcomes(st: Store, name: string)
    requires st.Valid()
    ensures name == "" ==> Exposing(st, name) == Err(RuntimeError(EMPTY_NAME_MESSAGE))
    ensures name != "" && name !in st.beans ==> Exposing(st, name) == Ok(Absent)
    ensures name != "" && name in st.beans && CastSucceeds(st) ==>
      var ty := st.heap[st.beans[name]].ty;
      (Exposing(st, name) == Ok(Target(st.beans[name])) <==> !ClassTransactional(ty) && !MethodTransactional(ty))
    ensures name != "" && name in st.beans && !CastSucceeds(st) ==> Exposing(st, name) == Err(ClassCast)
  {
  }

  /**
   * A wrapped object gets a JDK proxy exactly when its class implements an
   * interface, and the proxy's flag is `isMethodProxy` alone.
   */
  lemma ProxyChoice(st: Store, name: string)
    requires st.Valid() && name != "" && name in st.beans && CastSucceeds(st) && PROXY_FACTORY_NAME in st.beans
    requires var ty := st.heap[st.beans[name]].ty; ClassTransactional(ty) || MethodTransactional(ty)
    ensures var ty := st.heap[st.beans[name]].ty;
      Exposing(st, name).Ok? && Exposing(st, name).value.Wrapped?
      && (Exposing(st, name).value.kind == JdkProxy <==> ty.hasInterfaces)
      && Exposing(st, name).value.isMethodProxy == MethodTransactional(ty)
      && Exposing(st, name).value.target == st.beans[name]
  {
  }

  /**
   * A class marked `@MyTransactional` only at class level is wrapped, but
   * its proxy's flag is false: no call through it touches the transaction
   * manager.
   */
  lemma ClassOnlyMarkingNeverTransacts(st: Store, name: string, tm: Option<TxFaults>, m: string, call: Outcome)
    requires st.Valid() && name != "" && name in st.beans && CastSucceeds(st) && PROXY_FACTORY_NAME in st.beans
    requires var ty := st.heap[st.beans[name]].ty; ClassTransactional(ty) && !MethodTransactional(ty)
    ensures Exposing(st, name).Ok? && Exposing(st, name).value.Wrapped? && !Exposing(st, name).value.isMethodProxy
    ensures Intercepted(tm, false, st.beans[name], m, call).events == [Invoke(st.beans[name], m)]
  {
  }

  /**
   * One `@MyTransactional` method is enough to make every method called
   * through the proxy run in a transaction (when a manager is injected).
   */
  lemma OneMarkedMethodMarksAll(st: Store, name: string, tm: Option<TxFaults>, m: string, call: Outcome)
    requires st.Valid() && name != "" && name in st.beans && CastSucceeds(st) && PROXY_FACTORY_NAME in st.beans
    requires MethodTransactional(st.heap[st.beans[name]].ty)
    ensures Exposing(st, name).Ok? && Exposing(st, name).value.Wrapped? && Exposing(st, name).value.isMethodProxy
    ensures (Begin in Intercepted(tm, true, st.beans[name], m, call).events) <==> tm.Some?
  {
    FlagAppliesToEveryMethod(tm, true, st.beans[name], m, m, call, call);
  }

  /**
   * The two flag loops of `dealWithProxyBean`: one over the class's
   * annotations, one over the declared methods' annotations that stops at
   * the first `@MyTransactional`.
   */
  method ScanTransactional(ty: TypeDesc) returns (isGlobalProxy: bool, isMethodProxy: bool)
    ensures isGlobalProxy <==> ClassTransactional(ty)
    ensures isMethodProxy <==> MethodTransactional(ty)
  {
    isGlobalProxy := false;
    isMethodProxy := false;
    var anns := ty.annotations;
    for i := 0 to |anns|
      invariant isGlobalProxy <==> MyTransactional in anns[..i]
    {
      assert anns[..i + 1] == anns[..i] + [anns[i]];
      if anns[i] == MyTransactional {
        isGlobalProxy := true;
      }
    }
    assert anns[..|anns|] == anns;
    var ms := ty.declaredMethods;
    var i := 0;
    while i < |ms| && !isMethodProxy
      invariant 0 <= i <= |ms|
      invariant isMethodProxy ==> MethodTransactional(ty)
      invariant !isMethodProxy ==> forall k :: 0 <= k < i ==> MyTransactional !in ms[k].annotations
    {
      var ma := ms[i].annotations;
      var j := 0;
      while j < |ma| && !isMethodProxy
        invariant 0 <= j <= |ma|
        invariant isMethodProxy ==> MyTransactional in ma
        invariant !isMethodProxy ==> MyTransactional !in ma[..j]
      {
        assert ma[..j + 1] == ma[..j] + [ma[j]];
        if ma[j] == MyTransactional {
          isMethodProxy := true;
        }
        j := j + 1;
      }
      if isMethodProxy {
        assert ms[i] in ms;
      } else {
        assert ma[..j] == ma;
      }
      i := i + 1;
    }
  }

  /** A bound object as `getBean` returns it. */
  datatype Exposed = NullRef | Raw(ref: Ref) | Proxied(proxy: Proxy)

  /** `r` is what the decision `d` describes, with proxies made by `pf`. */
  predicate Realizes(d: Result<Exposure>, r: Result<Exposed>, pf: ProxyFactory) {
    match d
    case Err(e) => r == Err(e)
    case Ok(Absent) => r == Ok(NullRef)
    case Ok(Target(t)) => r == Ok(Raw(t))
    case Ok(Wrapped(k, flag, t)) =>
      r.Ok? && r.value.Proxied? && r.value.proxy.kind == k && r.value.proxy.isMethodProxy == flag
      && r.value.proxy.target == t && r.value.proxy.factory == pf
  }

  class BeanFactory {
    /** `singletonBeanMap` */
    var singletonBeanMap: map<string, Ref>
    /** The objects the container created, by reference. */
    var heap: seq<Instance>

    function Current(): Store
      reads this
    {
      Store(singletonBeanMap, heap)
    }

    /**
     * The static initializer: the four passes in order. The first exception
     * ends the bootstrap and is swallowed, leaving the map as far as it got.
     */
    constructor Bootstrap(config: Option<XmlConfig>, files: seq<string>, cp: Classpath, sep: char, order: seq<Ref>)
      ensures Current() == Boot(config, files, cp, sep, order).store
    {
      singletonBeanMap := map[];
      heap := [];
      new;
      if config.Some? {
        var c := config.value;
        var err := ParserAnnotationBean(c.componentScan, files, cp, sep);
        if err.None? {
          err := ParserXmlBean(c.beans, cp);
          if err.None? {
            err := PopulateAnnotationPropertyForBean(order);
            if err.None? {
              err := PopulateXmlPropertyForBean(c.beans);
            }
          }
        }
      }
    }

    /** `parserAnnotationBean`: the scan path must be there and non-empty. */
    method ParserAnnotationBean(scan: Option<string>, files: seq<string>, cp: Classpath, sep: char) returns (err: Option<BootError>)
      modifies this
      ensures Step(Current(), err) == AnnotationPhase(old(Current()), scan, files, cp, sep)
    {
      if scan.None? {
        return Some(ComponentScanMissing);
      }
      if scan.value == "" {
        return Some(ComponentScanEmpty);
      }
      err := ScanAndCreateBean(files, cp, sep);
    }

    /** `scanAndCreateBean` over the files the walk finds, in order. */
    method ScanAndCreateBean(files: seq<string>, cp: Classpath, sep: char) returns (err: Option<BootError>)
      modifies this
      ensures Step(Current(), err) == ScanFiles(old(Current()), files, cp, sep)
    {
      err := None;
      var i := 0;
      while i < |files|
        invariant 0 <= i <= |files|
        invariant err.None?
        invariant Step(Current(), None) == ScanFiles(old(Current()), files[..i], cp, sep)
      {
        ScanFilesSnoc(old(Current()), files, cp, sep, i);
        err := ScanFile(files[i], cp, sep);
        assert Step(Current(), err) == ScanFiles(old(Current()), files[..i + 1], cp, sep);
        if err.Some? {
          ScanFilesStops(old(Current()), files, cp, sep, i + 1);
          return;
        }
        i := i + 1;
      }
      assert files[..i] == files;
    }

    /** One file of the walk: derive its class name, load the class, skip interfaces and annotation types. */
    method ScanFile(path: string, cp: Classpath, sep: char) returns (err: Option<BootError>)
      modifies this
      ensures Step(Current(), err) == Registry.ScanFile(old(Current()), path, cp, sep)
    {
      var cls := ClassNameOfPath(path, sep);
      if cls.None? {
        return Some(BadClassFile(path));
      }
      if cls.value !in cp {
        return Some(ClassNotFound(cls.value));
      }
      if !cp[cls.value].kind.ClassType? {
        return None;
      }
      err := ParserBeanAnnotation(cls.value, cp[cls.value]);
    }

    /** `parserBeanAnnotation`: each component annotation puts a new object under its name. */
    method ParserBeanAnnotation(cls: string, ty: TypeDesc) returns (err: Option<BootError>)
      modifies this
      ensures Step(Current(), err) == RegisterAnnotations(old(Current()), cls, ty, ty.annotations)
    {
      err := None;
      var anns := ty.annotations;
      var i := 0;
      while i < |anns|
        invariant 0 <= i <= |anns|
        invariant err.None?
        invariant Step(Current(), None) == RegisterAnnotations(old(Current()), cls, ty, anns[..i])
      {
        RegisterAnnotationsSnoc(old(Current()), cls, ty, anns, i);
        err := RegisterComponent(cls, ty, anns[i]);
        assert Step(Current(), err) == RegisterAnnotations(old(Current()), cls, ty, anns[..i + 1]);
        if err.Some? {
          RegisterAnnotationsStops(old(Current()), cls, ty, anns, i + 1);
          return;
        }
        i := i + 1;
      }
      assert anns[..i] == anns;
    }

    /** One annotation of `parserBeanAnnotation`'s loop. */
    method RegisterComponent(cls: string, ty: TypeDesc, a: Annotation) returns (err: Option<BootError>)
      modifies this
      ensures Step(Current(), err) == RegisterAnnotation(old(Current()), cls, ty, a)
    {
      var value := ComponentValue(a);
      if value.None? {
        return None;
      }
      var beanName := RegisteredName(value.value, cls);
      if beanName.None? {
        return Some(EmptySimpleName(cls));
      }
      if !Instantiable(ty) {
        return Some(NotInstantiable(cls));
      }
      Put(beanName.value, cls, ty);
      err := None;
    }

    /** `singletonBeanMap.put(name, cls.newInstance())` */
    method Put(name: string, cls: string, ty: TypeDesc)
      modifies this
      ensures Current() == Registry.Put(old(Current()), name, cls, ty)
    {
      singletonBeanMap := singletonBeanMap[name := |heap|];
      heap := heap + [Instance(cls, ty, map[], [])];
    }

    /** `parserXmlBean`: each `<bean>` in order puts a new object under its id. */
    method ParserXmlBean(defs: seq<BeanDef>, cp: Classpath) returns (err: Option<BootError>)
      modifies this
      ensures Step(Current(), err) == CreateXmlBeans(old(Current()), defs, cp)
    {
      err := None;
      var i := 0;
      while i < |defs|
        invariant 0 <= i <= |defs|
        invariant err.None?
        invariant Step(Current(), None) == CreateXmlBeans(old(Current()), defs[..i], cp)
      {
        CreateXmlBeansSnoc(old(Current()), defs, cp, i);
        err := CreateXmlBean(defs[i], cp);
        assert Step(Current(), err) == CreateXmlBeans(old(Current()), defs[..i + 1], cp);
        if err.Some? {
          CreateXmlBeansStops(old(Current()), defs, cp, i + 1);
          return;
        }
        i := i + 1;
      }
      assert defs[..i] == defs;
    }

    /** One `<bean>`: load the class, instantiate it, bind the object to the id. */
    method CreateXmlBean(d: BeanDef, cp: Classpath) returns (err: Option<BootError>)
      modifies this
      ensures Step(Current(), err) == Registry.CreateXmlBean(old(Current()), d, cp)
    {
      if d.cls !in cp {
        return Some(ClassNotFound(d.cls));
      }
      if !Instantiable(cp[d.cls]) {
        return Some(NotInstantiable(d.cls));
      }
      Put(d.id, d.cls, cp[d.cls]);
      err := None;
    }

    /**
     * The inner loop of `populateAnnotionPropertyForBean` for one object: the
     * values its `@MyAutowired` fields receive from the map, up to the first
     * `field.set` that throws.
     */
    method AutowiredFields(inst: Instance) returns (fields: map<string, Option<Ref>>, err: Option<BootError>)
      requires Current().Valid()
      ensures Wired(fields, err) == AutowireFields(Current(), inst.cls, inst.fields, inst.ty.fields)
    {
      var fs := inst.ty.fields;
      fields := inst.fields;
      err := None;
      var k := 0;
      while k < |fs|
        invariant 0 <= k <= |fs|
        invariant Wired(fields, None) == AutowireFields(Current(), inst.cls, inst.fields, fs[..k])
      {
        AutowireFieldsSnoc(Current(), inst.cls, inst.fields, fs, k);
        var f := fs[k];
        if f.autowired.Some? {
          var o := Lookup(singletonBeanMap, InjectionName(f));
          if !SetAccepts(f.kind, ClassOf(Current(), o)) {
            err := Some(FieldRejected(inst.cls, f.name));
            AutowireFieldsStops(Current(), inst.cls, inst.fields, fs, k + 1);
            return;
          }
          fields := fields[f.name := o];
        }
        k := k + 1;
      }
      assert fs[..k] == fs;
    }

    /**
     * One object of `populateAnnotionPropertyForBean`'s outer loop: its
     * fields become what its `@MyAutowired` loop assigns. `st` is the store
     * the pass started from, which differs from this one only by fields.
     */
    method AutowireBean(ghost st: Store, ref: Ref) returns (err: Option<BootError>)
      requires st.Valid() && Current().Valid() && SameButFields(st, Current()) && ref < |heap|
      modifies this
      ensures Step(Current(), err) == AutowireObject(st, old(Current()), ref)
    {
      var fields;
      fields, err := AutowiredFields(heap[ref]);
      AutowireObjectIs(st, Current(), ref, fields, err);
      heap := heap[ref := heap[ref].(fields := fields)];
    }

    /** One step of the autowiring loop: the object `order[i]`, if it is bound. */
    method AutowireNext(ghost st: Store, order: seq<Ref>, i: nat) returns (err: Option<BootError>)
      requires st.Valid() && i < |order|
      requires Step(Current(), None) == AutowirePass(st, order[..i])
      modifies this
      ensures Step(Current(), err) == AutowirePass(st, order[..i + 1])
    {
      AutowirePassSnoc(st, order, i);
      err := None;
      if order[i] in singletonBeanMap.Values {
        err := AutowireBean(st, order[i]);
      }
    }

    /**
     * `populateAnnotionPropertyForBean`: the objects of `values()`, in the
     * order `order`, get their `@MyAutowired` fields set, until a `field.set`
     * throws.
     */
    method PopulateAnnotationPropertyForBean(order: seq<Ref>) returns (err: Option<BootError>)
      requires Current().Valid()
      modifies this
      ensures Step(Current(), err) == AutowirePass(old(Current()), order)
    {
      ghost var st := Current();
      err := None;
      var i := 0;
      while i < |order|
        invariant 0 <= i <= |order|
        invariant err.None?
        invariant Step(Current(), None) == AutowirePass(st, order[..i])
      {
        err := AutowireNext(st, order, i);
        if err.Some? {
          AutowirePassStops(st, order, i + 1);
          return;
        }
        i := i + 1;
      }
      assert order[..i] == order;
    }

    /** `populateXmlPropertyForBean`: the `<property>` children of each `<bean>`, in order. */
    method PopulateXmlPropertyForBean(defs: seq<BeanDef>) returns (err: Option<BootError>)
      requires Current().Valid()
      modifies this
      ensures Step(Current(), err) == XmlWirePass(old(Current()), defs)
    {
      err := None;
      var i := 0;
      while i < |defs|
        invariant 0 <= i <= |defs|
        invariant err.None?
        invariant Step(Current(), None) == XmlWirePass(old(Current()), defs[..i])
        invariant Current().Valid()
      {
        XmlWirePassSnoc(old(Current()), defs, i);
        err := WireProperties(defs[i].id, defs[i].properties);
        assert Step(Current(), err) == XmlWirePass(old(Current()), defs[..i + 1]);
        if err.Some? {
          XmlWirePassStops(old(Current()), defs, i + 1);
          return;
        }
        i := i + 1;
      }
      assert defs[..i] == defs;
    }

    /** The `properties.forEach` of one `<bean>`. */
    method WireProperties(id: string, ps: seq<PropertyDef>) returns (err: Option<BootError>)
      requires Current().Valid()
      modifies this
      ensures Step(Current(), err) == Registry.WireProperties(old(Current()), id, ps)
    {
      err := None;
      var i := 0;
      while i < |ps|
        invariant 0 <= i <= |ps|
        invariant err.None?
        invariant Step(Current(), None) == Registry.WireProperties(old(Current()), id, ps[..i])
        invariant Current().Valid()
      {
        WirePropertiesSnoc(old(Current()), id, ps, i);
        err := WireProperty(id, ps[i]);
        assert Step(Current(), err) == Registry.WireProperties(old(Current()), id, ps[..i + 1]);
        if err.Some? {
          WirePropertiesStops(old(Current()), id, ps, i + 1);
          return;
        }
        i := i + 1;
      }
      assert ps[..i] == ps;
    }

    /** One `<property>`: find the bean, derive the setter name, invoke every matching setter. */
    method WireProperty(id: string, p: PropertyDef) returns (err: Option<BootError>)
      requires Current().Valid()
      modifies this
      ensures Step(Current(), err) == Registry.WireProperty(old(Current()), id, p)
    {
      var parent := Lookup(singletonBeanMap, id);
      var setter := SetterName(p.name);
      if setter.None? {
        return Some(EmptySimpleName(p.name));
      }
      if parent.None? {
        return Some(NullBean(id));
      }
      err := InvokeMatchingSetters(id, parent.value, setter.value, p.ref);
    }

    /** The loop over `getMethods()`: each public method named `setter` is invoked with the bean `ref`. */
    method InvokeMatchingSetters(id: string, parent: Ref, setter: string, ref: string) returns (err: Option<BootError>)
      requires Current().Valid() && parent < |heap|
      modifies this
      ensures Step(Current(), err) == InvokeSetters(old(Current()), id, parent, setter, ref, old(heap)[parent].ty.publicMethods)
    {
      err := None;
      var ms := heap[parent].ty.publicMethods;
      var k := 0;
      while k < |ms|
        invariant 0 <= k <= |ms|
        invariant err.None?
        invariant Step(Current(), None) == InvokeSetters(old(Current()), id, parent, setter, ref, ms[..k])
      {
        InvokeSettersSnoc(old(Current()), id, parent, setter, ref, ms, k);
        if ms[k] == setter {
          var refBean := Lookup(singletonBeanMap, ref);
          if refBean.None? {
            InvokeSettersStops(old(Current()), id, parent, setter, ref, ms, k + 1);
            return Some(UnregisteredRef(id, ref));
          }
          heap := heap[parent := heap[parent].(setterCalls := heap[parent].setterCalls + [SetterCall(setter, refBean.value)])];
        }
        k := k + 1;
      }
      assert ms[..k] == ms;
    }

    /**
     * `getBean`. `pf` is the object the "proxyFactory" entry is bound to; a
     * wrapped object is handed out as a proxy made on this call.
     */
    method GetBean(name: string, pf: ProxyFactory) returns (r: Result<Exposed>)
      requires Current().Valid()
      ensures Realizes(Exposing(Current(), name), r, pf)
      ensures r.Ok? && r.value.Proxied? ==> fresh(r.value.proxy)
    {
      if name == "" {
        return Err(RuntimeError(EMPTY_NAME_MESSAGE));
      }
      var target := Lookup(singletonBeanMap, name);
      if target.Some? {
        r := DealWithProxyBean(target.value, pf);
        return;
      }
      r := Ok(NullRef);
    }

    /** `dealWithProxyBean` */
    method DealWithProxyBean(target: Ref, pf: ProxyFactory) returns (r: Result<Exposed>)
      requires Current().Valid() && target < |heap|
      ensures Realizes(ProxyDecision(Current(), target), r, pf)
      ensures r.Ok? && r.value.Proxied? ==> fresh(r.value.proxy)
    {
      var proxyFactory := Lookup(singletonBeanMap, PROXY_FACTORY_NAME);
      if proxyFactory.Some? && heap[proxyFactory.value].cls != PROXY_FACTORY_CLASS {
        return Err(ClassCast);
      }
      var ty := heap[target].ty;
      var isGlobalProxy, isMethodProxy := ScanTransactional(ty);
      if isGlobalProxy || isMethodProxy {
        if proxyFactory.None? {
          return Err(NullPointer);
        }
        var p;
        if ty.hasInterfaces {
          p := pf.GetJdkProxy(target, isMethodProxy);
        } else {
          p := pf.GetCglibProxy(target, isMethodProxy);
        }
        return Ok(Proxied(p));
      }
      r := Ok(Raw(target));
    }
  }

  /**
   * Two `getBean` calls for one name: a wrapped object comes back as two
   * different proxies, anything else as the same result both times.
   */
  method GetBeanTwice(factory: BeanFactory, name: string, pf: ProxyFactory) returns (first: Result<Exposed>, second: Result<Exposed>)
    requires factory.Current().Valid()
    ensures first.Ok? && first.value.Proxied? ==> second.Ok? && second.value.Proxied? && first.value.proxy != second.value.proxy
    ensures !(first.Ok? && first.value.Proxied?) ==> second == first
  {
    first := factory.GetBean(name, pf);
    second := factory.GetBean(name, pf);
  }
}

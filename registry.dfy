/**
 * The container's bootstrap as functions on a value: the singleton map
 * (`singletonBeanMap`) and the objects the container has created. Each
 * function states one pass of `BeanFactory`'s static initializer; a pass
 * that throws returns the store as far as it got together with the error.
 */
module Registry {
  import opened Values
  import opened BeanNames
  import opened Descriptors

  /** A reflective call of a public setter on a bean, with the bean passed to it. */
  datatype SetterCall = SetterCall(setter: string, arg: Ref)

  /**
   * An object created by `newInstance()`: its class, the fields the container
   * assigned (`None` is a field set to null) and the setters it invoked on it.
   */
  datatype Instance = Instance(cls: string, ty: TypeDesc, fields: map<string, Option<Ref>>, setterCalls: seq<SetterCall>)

  /** `singletonBeanMap` (name to object) and every object created so far, by reference. */
  datatype Store = Store(beans: map<string, Ref>, heap: seq<Instance>) {
    /** Every bound name refers to an object the container created. */
    ghost predicate Valid() {
      forall n :: n in beans ==> beans[n] < |heap|
    }
  }

  /** The exception that ended the bootstrap (the static initializer prints it and carries on). */
  datatype BootError =
    | ConfigMissing                    // no ApplicationContext.xml on the classpath
    | ComponentScanMissing             // `basePackages.get(0)` on an empty list
    | ComponentScanEmpty               // "component-scan is error"
    | BadClassFile(path: string)       // no "com" in the file name: `substring(-1)`
    | ClassNotFound(cls: string)       // `Class.forName`
    | NotInstantiable(cls: string)     // `newInstance()`
    | EmptySimpleName(name: string)    // `substring(0, 1)` in a name derivation
    | NullBean(id: string)             // `parentObj.getClass()` on a null bean
    | UnregisteredRef(id: string, ref: string)  // "配置引用对象未被注册"
    | FieldRejected(cls: string, field: string) // `Field.set`: IllegalArgumentException

  /** The store after a pass, and the exception that stopped the pass, if any. */
  datatype Step = Step(store: Store, err: Option<BootError>)

  const Empty := Store(map[], [])

  /** `singletonBeanMap.put(name, cls.newInstance())`: a new object, bound to `name`. */
  function Put(st: Store, name: string, cls: string, ty: TypeDesc): (r: Store)
    ensures st.Valid() ==> r.Valid()
    ensures r.beans == st.beans[name := |st.heap|]
    ensures |r.heap| == |st.heap| + 1 && r.heap[..|st.heap|] == st.heap
    ensures r.heap[|st.heap|].cls == cls && r.heap[|st.heap|].ty == ty
    ensures r.heap[|st.heap|].fields == map[] && r.heap[|st.heap|].setterCalls == []
  {
    Store(st.beans[name := |st.heap|], st.heap + [Instance(cls, ty, map[], [])])
  }

  // ---------------------------------------------------------------------
  // Creation, first pass: classes found under the scan root.
  // ---------------------------------------------------------------------

  /** The name a component annotation registers under: its `value()`, else the derived key. */
  function RegisteredName(value: string, cls: string): (r: Option<string>)
    ensures value != "" ==> r == Some(value)
    ensures value == "" ==> (r.Some? <==> SimpleName(cls) != [])
    ensures value == "" && r.Some? ==>
      |r.value| == |SimpleName(cls)| && r.value[0] == ToLower(SimpleName(cls)[0]) && r.value[1..] == SimpleName(cls)[1..]
    ensures r.Some? ==> r.value != []
  {
    if value == "" then BeanKey(cls) else Some(value)
  }

  /** One annotation of a scanned class (one iteration of `parserBeanAnnotation`'s loop). */
  function RegisterAnnotation(st: Store, cls: string, ty: TypeDesc, a: Annotation): (r: Step)
    ensures st.Valid() ==> r.store.Valid()
    ensures st.beans.Keys <= r.store.beans.Keys && |st.heap| <= |r.store.heap| && r.store.heap[..|st.heap|] == st.heap
  {
    match ComponentValue(a)
    case None => Step(st, None)
    case Some(v) =>
      match RegisteredName(v, cls)
      case None => Step(st, Some(EmptySimpleName(cls)))
      case Some(name) =>
        if Instantiable(ty) then Step(Put(st, name, cls, ty), None)
        else Step(st, Some(NotInstantiable(cls)))
  }

  /** `parserBeanAnnotation`: the annotations of one class, in order, until one throws. */
  function RegisterAnnotations(st: Store, cls: string, ty: TypeDesc, anns: seq<Annotation>): (r: Step)
    ensures st.Valid() ==> r.store.Valid()
    ensures st.beans.Keys <= r.store.beans.Keys && |st.heap| <= |r.store.heap| && r.store.heap[..|st.heap|] == st.heap
    decreases |anns|
  {
    if anns == [] then Step(st, None)
    else
      var s := RegisterAnnotations(st, cls, ty, anns[..|anns| - 1]);
      if s.err.Some? then s else RegisterAnnotation(s.store, cls, ty, anns[|anns| - 1])
  }

  /** Once a class's annotation loop throws on a prefix, the rest of the list is never looked at. */
  lemma {:induction false} RegisterAnnotationsStops(st: Store, cls: string, ty: TypeDesc, anns: seq<Annotation>, i: nat)
    requires i <= |anns| && RegisterAnnotations(st, cls, ty, anns[..i]).err.Some?
    ensures RegisterAnnotations(st, cls, ty, anns) == RegisterAnnotations(st, cls, ty, anns[..i])
    decreases |anns|
  {
    if i < |anns| {
      var prefix := anns[..|anns| - 1];
      assert prefix[..i] == anns[..i];
      RegisterAnnotationsStops(st, cls, ty, prefix, i);
    } else {
      assert anns[..i] == anns;
    }
  }

  lemma RegisterAnnotationsSnoc(st: Store, cls: string, ty: TypeDesc, anns: seq<Annotation>, i: nat)
    requires i < |anns|
    ensures var s := RegisterAnnotations(st, cls, ty, anns[..i]);
      RegisterAnnotations(st, cls, ty, anns[..i + 1]) == if s.err.Some? then s else RegisterAnnotation(s.store, cls, ty, anns[i])
  {
    assert anns[..i + 1][..i] == anns[..i];
  }

  /** One file of `scanAndCreateBean`: derive the class name, load it, skip interfaces and annotation types. */
  function ScanFile(st: Store, path: string, cp: Classpath, sep: char): (r: Step)
    ensures st.Valid() ==> r.store.Valid()
    ensures st.beans.Keys <= r.store.beans.Keys && |st.heap| <= |r.store.heap| && r.store.heap[..|st.heap|] == st.heap
  {
    match ClassNameOfPath(path, sep)
    case None => Step(st, Some(BadClassFile(path)))
    case Some(cls) =>
      if cls !in cp then Step(st, Some(ClassNotFound(cls)))
      else if !cp[cls].kind.ClassType? then Step(st, None)
      else RegisterAnnotations(st, cls, cp[cls], cp[cls].annotations)
  }

  /** `scanAndCreateBean` over the files of the scan root, in walk order, until one throws. */
  function ScanFiles(st: Store, files: seq<string>, cp: Classpath, sep: char): (r: Step)
    ensures st.Valid() ==> r.store.Valid()
    ensures st.beans.Keys <= r.store.beans.Keys && |st.heap| <= |r.store.heap| && r.store.heap[..|st.heap|] == st.heap
    decreases |files|
  {
    if files == [] then Step(st, None)
    else
      var s := ScanFiles(st, files[..|files| - 1], cp, sep);
      if s.err.Some? then s else ScanFile(s.store, files[|files| - 1], cp, sep)
  }

  /** Once the scan throws on a prefix, the rest of the list is never looked at. */
  lemma {:induction false} ScanFilesStops(st: Store, files: seq<string>, cp: Classpath, sep: char, i: nat)
    requires i <= |files| && ScanFiles(st, files[..i], cp, sep).err.Some?
    ensures ScanFiles(st, files, cp, sep) == ScanFiles(st, files[..i], cp, sep)
    decreases |files|
  {
    if i < |files| {
      var prefix := files[..|files| - 1];
      assert prefix[..i] == files[..i];
      ScanFilesStops(st, prefix, cp, sep, i);
    } else {
      assert files[..i] == files;
    }
  }

  lemma ScanFilesSnoc(st: Store, files: seq<string>, cp: Classpath, sep: char, i: nat)
    requires i < |files|
    ensures var s := ScanFiles(st, files[..i], cp, sep);
      ScanFiles(st, files[..i + 1], cp, sep) == if s.err.Some? then s else ScanFile(s.store, files[i], cp, sep)
  {
    assert files[..i + 1][..i] == files[..i];
  }

  /** `parserAnnotationBean`: check the scan path, then scan. */
  function AnnotationPhase(st: Store, scan: Option<string>, files: seq<string>, cp: Classpath, sep: char): (r: Step)
    ensures st.Valid() ==> r.store.Valid()
    ensures st.beans.Keys <= r.store.beans.Keys && |st.heap| <= |r.store.heap| && r.store.heap[..|st.heap|] == st.heap
  {
    match scan
    case None => Step(st, Some(ComponentScanMissing))
    case Some(p) => if p == "" then Step(st, Some(ComponentScanEmpty)) else ScanFiles(st, files, cp, sep)
  }

  // ---------------------------------------------------------------------
  // Creation, second pass: `<bean>` entries.
  // ---------------------------------------------------------------------

  /** One `<bean>` of `parserXmlBean`: load the class, instantiate it, bind it to the id. */
  function CreateXmlBean(st: Store, d: BeanDef, cp: Classpath): (r: Step)
    ensures st.Valid() ==> r.store.Valid()
    ensures st.beans.Keys <= r.store.beans.Keys && |st.heap| <= |r.store.heap| && r.store.heap[..|st.heap|] == st.heap
  {
    if d.cls !in cp then Step(st, Some(ClassNotFound(d.cls)))
    else if !Instantiable(cp[d.cls]) then Step(st, Some(NotInstantiable(d.cls)))
    else Step(Put(st, d.id, d.cls, cp[d.cls]), None)
  }

  /** `parserXmlBean`: every `<bean>` in document order, until one throws. */
  function CreateXmlBeans(st: Store, defs: seq<BeanDef>, cp: Classpath): (r: Step)
    ensures st.Valid() ==> r.store.Valid()
    ensures st.beans.Keys <= r.store.beans.Keys && |st.heap| <= |r.store.heap| && r.store.heap[..|st.heap|] == st.heap
    decreases |defs|
  {
    if defs == [] then Step(st, None)
    else
      var s := CreateXmlBeans(st, defs[..|defs| - 1], cp);
      if s.err.Some? then s else CreateXmlBean(s.store, defs[|defs| - 1], cp)
  }

  /** Once `parserXmlBean` throws on a prefix, the rest of the list is never looked at. */
  lemma {:induction false} CreateXmlBeansStops(st: Store, defs: seq<BeanDef>, cp: Classpath, i: nat)
    requires i <= |defs| && CreateXmlBeans(st, defs[..i], cp).err.Some?
    ensures CreateXmlBeans(st, defs, cp) == CreateXmlBeans(st, defs[..i], cp)
    decreases |defs|
  {
    if i < |defs| {
      var prefix := defs[..|defs| - 1];
      assert prefix[..i] == defs[..i];
      CreateXmlBeansStops(st, prefix, cp, i);
    } else {
      assert defs[..i] == defs;
    }
  }

  lemma CreateXmlBeansSnoc(st: Store, defs: seq<BeanDef>, cp: Classpath, i: nat)
    requires i < |defs|
    ensures var s := CreateXmlBeans(st, defs[..i], cp);
      CreateXmlBeans(st, defs[..i + 1], cp) == if s.err.Some? then s else CreateXmlBean(s.store, defs[i], cp)
  {
    assert defs[..i + 1][..i] == defs[..i];
  }

  /** Both creation passes: annotated classes first, then `<bean>` entries. */
  function CreationPhase(c: XmlConfig, files: seq<string>, cp: Classpath, sep: char): (r: Step)
    ensures r.store.Valid()
  {
    var s := AnnotationPhase(Empty, c.componentScan, files, cp, sep);
    if s.err.Some? then s else CreateXmlBeans(s.store, c.beans, cp)
  }

  // ---------------------------------------------------------------------
  // Wiring, first pass: `@MyAutowired` fields.
  // ---------------------------------------------------------------------

  /** `singletonBeanMap.get(name)`: the bound object, or null. */
  function Lookup(beans: map<string, Ref>, name: string): (r: Option<Ref>)
    ensures r.Some? <==> name in beans
    ensures r.Some? ==> r.value == beans[name]
  {
    if name in beans then Some(beans[name]) else None
  }

  /** The name an `@MyAutowired` field is looked up by: its `value()`, else the key of its type's simple name. */
  function InjectionName(f: FieldDesc): (r: string)
    requires f.autowired.Some?
    ensures f.autowired.value != "" ==> r == f.autowired.value
    ensures f.autowired.value == "" ==>
      |r| == |f.typeName| && r[0] == ToLower(f.typeName[0]) && r[1..] == f.typeName[1..]
    ensures r != []
  {
    if f.autowired.value != "" then f.autowired.value
    else
      SimpleNameOfDotless(f.typeName);
      BeanKey(f.typeName).value
  }

  /** Every object bound in a valid store is one the container created. */
  lemma BoundIsCreated(st: Store, ref: Ref)
    requires st.Valid() && ref in st.beans.Values
    ensures ref < |st.heap|
  {
    var n :| n in st.beans && st.beans[n] == ref;
  }

  /** The class of a looked-up object, `None` for null. */
  function ClassOf(st: Store, v: Option<Ref>): (r: Option<string>)
    requires v.Some? ==> v.value < |st.heap|
    ensures r.Some? <==> v.Some?
  {
    match v
    case None => None
    case Some(ref) => Some(st.heap[ref].cls)
  }

  /** The fields of one object after its `@MyAutowired` loop, and the exception that ended the loop, if any. */
  datatype Wired = Wired(fields: map<string, Option<Ref>>, err: Option<BootError>)

  /**
   * `field.set(instance, singletonBeanMap.get(name))` for each `@MyAutowired`
   * field of an object of class `cls`, in declaration order; a miss assigns
   * null, and the first assignment the field's type rejects throws and ends
   * the loop, leaving the fields assigned so far.
   */
  function AutowireFields(st: Store, cls: string, fields: map<string, Option<Ref>>, fs: seq<FieldDesc>): (r: Wired)
    requires st.Valid()
    ensures fields.Keys <= r.fields.Keys
    ensures r.err.Some? ==> r.err.value.FieldRejected? && r.err.value.cls == cls
    decreases |fs|
  {
    if fs == [] then Wired(fields, None)
    else
      var prev := AutowireFields(st, cls, fields, fs[..|fs| - 1]);
      var f := fs[|fs| - 1];
      if prev.err.Some? || f.autowired.None? then prev
      else
        var v := Lookup(st.beans, InjectionName(f));
        if SetAccepts(f.kind, ClassOf(st, v)) then Wired(prev.fields[f.name := v], None)
        else Wired(prev.fields, Some(FieldRejected(cls, f.name)))
  }

  lemma AutowireFieldsSnoc(st: Store, cls: string, fields: map<string, Option<Ref>>, fs: seq<FieldDesc>, i: nat)
    requires st.Valid() && i < |fs|
    ensures var prev := AutowireFields(st, cls, fields, fs[..i]);
      prev.err.Some? || fs[i].autowired.None? ==> AutowireFields(st, cls, fields, fs[..i + 1]) == prev
    ensures var prev := AutowireFields(st, cls, fields, fs[..i]);
      var v := if fs[i].autowired.Some? then Lookup(st.beans, InjectionName(fs[i])) else None;
      prev.err.None? && fs[i].autowired.Some? ==>
        AutowireFields(st, cls, fields, fs[..i + 1]) ==
          if SetAccepts(fs[i].kind, ClassOf(st, v)) then Wired(prev.fields[fs[i].name := v], None)
          else Wired(prev.fields, Some(FieldRejected(cls, fs[i].name)))
  {
    assert fs[..i + 1][..i] == fs[..i];
  }

  /** Once a field rejects its value on a prefix of the fields, the rest are never assigned. */
  lemma {:induction false} AutowireFieldsStops(st: Store, cls: string, fields: map<string, Option<Ref>>, fs: seq<FieldDesc>, i: nat)
    requires st.Valid() && i <= |fs| && AutowireFields(st, cls, fields, fs[..i]).err.Some?
    ensures AutowireFields(st, cls, fields, fs) == AutowireFields(st, cls, fields, fs[..i])
    decreases |fs|
  {
    if i < |fs| {
      var prefix := fs[..|fs| - 1];
      assert prefix[..i] == fs[..i];
      AutowireFieldsStops(st, cls, fields, prefix, i);
    } else {
      assert fs[..i] == fs;
    }
  }

  /** The same store up to assigned fields: same map, same objects, same setter calls. */
  ghost predicate SameButFields(a: Store, b: Store) {
    && a.beans == b.beans && |a.heap| == |b.heap|
    && forall i :: 0 <= i < |a.heap| ==>
        a.heap[i].cls == b.heap[i].cls && a.heap[i].ty == b.heap[i].ty && a.heap[i].setterCalls == b.heap[i].setterCalls
  }

  /** The loop reads only the map and the classes of the objects. */
  lemma {:induction false} AutowireFieldsReadsClasses(a: Store, b: Store, cls: string, fields: map<string, Option<Ref>>, fs: seq<FieldDesc>)
    requires a.Valid() && b.Valid() && SameButFields(a, b)
    ensures AutowireFields(a, cls, fields, fs) == AutowireFields(b, cls, fields, fs)
    decreases |fs|
  {
    if fs != [] {
      AutowireFieldsReadsClasses(a, b, cls, fields, fs[..|fs| - 1]);
    }
  }

  /**
   * The `@MyAutowired` loop of the object `ref` in `s`. Lookups read the map
   * and the classes of `st`, the store the pass started from; the pass
   * changes neither.
   */
  function AutowireObject(st: Store, s: Store, ref: Ref): (r: Step)
    requires st.Valid() && ref < |s.heap|
    ensures SameButFields(s, r.store)
    ensures forall i :: 0 <= i < |s.heap| && i != ref ==> r.store.heap[i] == s.heap[i]
  {
    var inst := s.heap[ref];
    var w := AutowireFields(st, inst.cls, inst.fields, inst.ty.fields);
    Step(Store(s.beans, s.heap[ref := inst.(fields := w.fields)]), w.err)
  }

  /** The loop of `ref` run on a store that differs from `st` only by fields is the one `AutowireObject` runs. */
  lemma AutowireObjectIs(st: Store, s: Store, ref: Ref, fields: map<string, Option<Ref>>, err: Option<BootError>)
    requires st.Valid() && s.Valid() && SameButFields(st, s) && ref < |s.heap|
    requires Wired(fields, err) == AutowireFields(s, s.heap[ref].cls, s.heap[ref].fields, s.heap[ref].ty.fields)
    ensures AutowireObject(st, s, ref) == Step(Store(s.beans, s.heap[ref := s.heap[ref].(fields := fields)]), err)
  {
    AutowireFieldsReadsClasses(st, s, s.heap[ref].cls, s.heap[ref].fields, s.heap[ref].ty.fields);
  }

  /**
   * `populateAnnotionPropertyForBean`: the objects `singletonBeanMap.values()`
   * yields, in the order `order` (the map's own iteration order, which this
   * model takes as given), each get their `@MyAutowired` fields assigned,
   * until an assignment throws. References in `order` that the map does not
   * bind are not visited. The map itself is untouched.
   */
  function AutowirePass(st: Store, order: seq<Ref>): (r: Step)
    requires st.Valid()
    ensures r.store.Valid() && SameButFields(st, r.store)
    decreases |order|
  {
    if order == [] then Step(st, None)
    else
      var s := AutowirePass(st, order[..|order| - 1]);
      var ref := order[|order| - 1];
      if s.err.Some? || ref !in st.beans.Values then s
      else
        BoundIsCreated(st, ref);
        AutowireObject(st, s.store, ref)
  }

  /** Once autowiring throws on a prefix of the order, the rest is never visited. */
  lemma {:induction false} AutowirePassStops(st: Store, order: seq<Ref>, i: nat)
    requires st.Valid() && i <= |order| && AutowirePass(st, order[..i]).err.Some?
    ensures AutowirePass(st, order) == AutowirePass(st, order[..i])
    decreases |order|
  {
    if i < |order| {
      var prefix := order[..|order| - 1];
      assert prefix[..i] == order[..i];
      AutowirePassStops(st, prefix, i);
    } else {
      assert order[..i] == order;
    }
  }

  lemma AutowirePassSnoc(st: Store, order: seq<Ref>, i: nat)
    requires st.Valid() && i < |order|
    ensures var s := AutowirePass(st, order[..i]);
      s.err.Some? || order[i] !in st.beans.Values ==> AutowirePass(st, order[..i + 1]) == s
    ensures order[i] in st.beans.Values ==> order[i] < |st.heap|
    ensures var s := AutowirePass(st, order[..i]);
      s.err.None? && order[i] in st.beans.Values ==>
        AutowirePass(st, order[..i + 1]) == AutowireObject(st, s.store, order[i])
  {
    assert order[..i + 1][..i] == order[..i];
    if order[i] in st.beans.Values {
      BoundIsCreated(st, order[i]);
    }
  }

  // ---------------------------------------------------------------------
  // Wiring, second pass: `<property name=".." ref=".."/>`.
  // ---------------------------------------------------------------------

  function AppendCall(st: Store, parent: Ref, call: SetterCall): Store
    requires parent < |st.heap|
  {
    Store(st.beans, st.heap[parent := st.heap[parent].(setterCalls := st.heap[parent].setterCalls + [call])])
  }

  /**
   * The same store up to setter calls: same map, same objects, same fields,
   * and each object's calls in `b` extend its calls in `a`.
   */
  ghost predicate SameButCalls(a: Store, b: Store) {
    && a.beans == b.beans && |a.heap| == |b.heap|
    && forall i :: 0 <= i < |a.heap| ==>
        a.heap[i].cls == b.heap[i].cls && a.heap[i].ty == b.heap[i].ty && a.heap[i].fields == b.heap[i].fields
  }

  /** One call of `setter` with `arg` for each method of `ms` named `setter`, in order. */
  function Matching(ms: seq<string>, setter: string, arg: Ref): (r: seq<SetterCall>)
    ensures |r| <= |ms|
    ensures forall c :: c in r ==> c == SetterCall(setter, arg)
    ensures r == [] <==> setter !in ms
    decreases |ms|
  {
    if ms == [] then []
    else
      var prev := Matching(ms[..|ms| - 1], setter, arg);
      assert ms == ms[..|ms| - 1] + [ms[|ms| - 1]];
      prev + if ms[|ms| - 1] == setter then [SetterCall(setter, arg)] else []
  }

  /**
   * The loop over `getMethods()` for one property: each public method named
   * `setter` is invoked with the bean named `ref`, which must be bound.
   */
  function InvokeSetters(st: Store, id: string, parent: Ref, setter: string, ref: string, ms: seq<string>): (r: Step)
    requires st.Valid() && parent < |st.heap|
    ensures r.store.Valid() && SameButCalls(st, r.store)
    decreases |ms|
  {
    if ms == [] then Step(st, None)
    else
      var s := InvokeSetters(st, id, parent, setter, ref, ms[..|ms| - 1]);
      if s.err.Some? || ms[|ms| - 1] != setter then s
      else if ref !in s.store.beans then Step(s.store, Some(UnregisteredRef(id, ref)))
      else Step(AppendCall(s.store, parent, SetterCall(setter, s.store.beans[ref])), None)
  }

  /** Once the setter loop throws on a prefix, the rest of the list is never looked at. */
  lemma {:induction false} InvokeSettersStops(st: Store, id: string, parent: Ref, setter: string, ref: string, ms: seq<string>, i: nat)
    requires st.Valid() && parent < |st.heap| && i <= |ms| && InvokeSetters(st, id, parent, setter, ref, ms[..i]).err.Some?
    ensures InvokeSetters(st, id, parent, setter, ref, ms) == InvokeSetters(st, id, parent, setter, ref, ms[..i])
    decreases |ms|
  {
    if i < |ms| {
      var prefix := ms[..|ms| - 1];
      assert prefix[..i] == ms[..i];
      InvokeSettersStops(st, id, parent, setter, ref, prefix, i);
    } else {
      assert ms[..i] == ms;
    }
  }

  lemma InvokeSettersSnoc(st: Store, id: string, parent: Ref, setter: string, ref: string, ms: seq<string>, i: nat)
    requires st.Valid() && parent < |st.heap| && i < |ms|
    ensures var s := InvokeSetters(st, id, parent, setter, ref, ms[..i]);
      InvokeSetters(st, id, parent, setter, ref, ms[..i + 1]) == if s.err.Some? then s else if ms[i] != setter then s
        else if ref !in s.store.beans then Step(s.store, Some(UnregisteredRef(id, ref)))
        else Step(AppendCall(s.store, parent, SetterCall(setter, s.store.beans[ref])), None)
  {
    assert ms[..i + 1][..i] == ms[..i];
  }

  /** One `<property>` of the bean bound to `id`. */
  function WireProperty(st: Store, id: string, p: PropertyDef): (r: Step)
    requires st.Valid()
    ensures r.store.Valid() && SameButCalls(st, r.store)
  {
    match SetterName(p.name)
    case None => Step(st, Some(EmptySimpleName(p.name)))
    case Some(setter) =>
      if id !in st.beans then Step(st, Some(NullBean(id)))
      else InvokeSetters(st, id, st.beans[id], setter, p.ref, st.heap[st.beans[id]].ty.publicMethods)
  }

  /** The `<property>` children of one `<bean>`, in order, until one throws. */
  function WireProperties(st: Store, id: string, ps: seq<PropertyDef>): (r: Step)
    requires st.Valid()
    ensures r.store.Valid() && SameButCalls(st, r.store)
    decreases |ps|
  {
    if ps == [] then Step(st, None)
    else
      var s := WireProperties(st, id, ps[..|ps| - 1]);
      if s.err.Some? then s else WireProperty(s.store, id, ps[|ps| - 1])
  }

  /** Once a `<bean>`'s property loop throws on a prefix, the rest of the list is never looked at. */
  lemma {:induction false} WirePropertiesStops(st: Store, id: string, ps: seq<PropertyDef>, i: nat)
    requires st.Valid() && i <= |ps| && WireProperties(st, id, ps[..i]).err.Some?
    ensures WireProperties(st, id, ps) == WireProperties(st, id, ps[..i])
    decreases |ps|
  {
    if i < |ps| {
      var prefix := ps[..|ps| - 1];
      assert prefix[..i] == ps[..i];
      WirePropertiesStops(st, id, prefix, i);
      assert WireProperties(st, id, ps) == WireProperties(st, id, prefix);
    } else {
      assert ps[..i] == ps;
    }
  }

  lemma WirePropertiesSnoc(st: Store, id: string, ps: seq<PropertyDef>, i: nat)
    requires st.Valid() && i < |ps|
    ensures var s := WireProperties(st, id, ps[..i]);
      WireProperties(st, id, ps[..i + 1]) == if s.err.Some? then s else WireProperty(s.store, id, ps[i])
  {
    assert ps[..i + 1][..i] == ps[..i];
  }

  /** `populateXmlPropertyForBean`: every `<bean>` in document order, until one throws. */
  function XmlWirePass(st: Store, defs: seq<BeanDef>): (r: Step)
    requires st.Valid()
    ensures r.store.Valid() && SameButCalls(st, r.store)
    decreases |defs|
  {
    if defs == [] then Step(st, None)
    else
      var s := XmlWirePass(st, defs[..|defs| - 1]);
      if s.err.Some? then s else WireProperties(s.store, defs[|defs| - 1].id, defs[|defs| - 1].properties)
  }

  /** Once setter wiring throws on a prefix, the rest of the list is never looked at. */
  lemma {:induction false} XmlWirePassStops(st: Store, defs: seq<BeanDef>, i: nat)
    requires st.Valid() && i <= |defs| && XmlWirePass(st, defs[..i]).err.Some?
    ensures XmlWirePass(st, defs) == XmlWirePass(st, defs[..i])
    decreases |defs|
  {
    if i < |defs| {
      var prefix := defs[..|defs| - 1];
      assert prefix[..i] == defs[..i];
      XmlWirePassStops(st, prefix, i);
    } else {
      assert defs[..i] == defs;
    }
  }

  lemma XmlWirePassSnoc(st: Store, defs: seq<BeanDef>, i: nat)
    requires st.Valid() && i < |defs|
    ensures var s := XmlWirePass(st, defs[..i]);
      XmlWirePass(st, defs[..i + 1]) == if s.err.Some? then s else WireProperties(s.store, defs[i].id, defs[i].properties)
  {
    assert defs[..i + 1][..i] == defs[..i];
  }

  // ---------------------------------------------------------------------
  // The static initializer.
  // ---------------------------------------------------------------------

  /**
   * The bootstrap: create from annotations, create from `<bean>` entries,
   * autowire (visiting the map's objects in `order`), wire setters. The
   * first exception ends it; the static initializer swallows that exception,
   * so the store is left as built.
   */
  function Boot(config: Option<XmlConfig>, files: seq<string>, cp: Classpath, sep: char, order: seq<Ref>): (r: Step)
    ensures r.store.Valid()
  {
    match config
    case None => Step(Empty, Some(ConfigMissing))
    case Some(c) =>
      var s := CreationPhase(c, files, cp, sep);
      if s.err.Some? then s
      else
        var a := AutowirePass(s.store, order);
        if a.err.Some? then a else XmlWirePass(a.store, c.beans)
  }
}

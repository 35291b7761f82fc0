/**
 * What the bootstrap guarantees: which names the annotation pass binds, that
 * `<bean>` entries win name collisions, that autowiring sees every created
 * bean, and when setter wiring throws.
 */
module RegistryFacts {
  import opened Values
  import opened BeanNames
  import opened Descriptors
  import opened Registry

  // ---------------------------------------------------------------------
  // The annotation pass binds exactly the component-annotated classes.
  // ---------------------------------------------------------------------

  /**
   * `inst` is a constructible class loaded from `cp` that carries a component
   * annotation registering under `n`.
   */
  ghost predicate ComponentBinding(inst: Instance, n: string, cp: Classpath) {
    && inst.cls in cp && cp[inst.cls] == inst.ty && Instantiable(inst.ty)
    && exists a :: a in inst.ty.annotations && ComponentValue(a).Some? && RegisteredName(ComponentValue(a).value, inst.cls) == Some(n)
  }

  /** Every name in the map is bound to an object of a component class registering under that name. */
  ghost predicate OnlyComponents(st: Store, cp: Classpath) {
    st.Valid() && forall n :: n in st.beans ==> ComponentBinding(st.heap[st.beans[n]], n, cp)
  }

  lemma {:induction false} RegisterAnnotationsOnlyComponents(st: Store, cls: string, anns: seq<Annotation>, cp: Classpath)
    requires OnlyComponents(st, cp) && cls in cp
    requires forall a :: a in anns ==> a in cp[cls].annotations
    ensures OnlyComponents(RegisterAnnotations(st, cls, cp[cls], anns).store, cp)
    decreases |anns|
  {
    if anns != [] {
      var prefix := anns[..|anns| - 1];
      assert forall a :: a in prefix ==> a in anns;
      RegisterAnnotationsOnlyComponents(st, cls, prefix, cp);
      var s := RegisterAnnotations(st, cls, cp[cls], prefix);
      if s.err.None? {
        var a := anns[|anns| - 1];
        var r := RegisterAnnotation(s.store, cls, cp[cls], a);
        if r.store != s.store {
          var name := RegisteredName(ComponentValue(a).value, cls).value;
          assert r.store == Put(s.store, name, cls, cp[cls]);
          assert ComponentBinding(r.store.heap[r.store.beans[name]], name, cp);
          forall n | n in r.store.beans
            ensures ComponentBinding(r.store.heap[r.store.beans[n]], n, cp)
          {
            if n != name {
              assert r.store.heap[r.store.beans[n]] == s.store.heap[s.store.beans[n]];
            }
          }
        }
      }
    }
  }

  lemma {:induction false} ScanFilesOnlyComponents(st: Store, files: seq<string>, cp: Classpath, sep: char)
    requires OnlyComponents(st, cp)
    ensures OnlyComponents(ScanFiles(st, files, cp, sep).store, cp)
    decreases |files|
  {
    if files != [] {
      ScanFilesOnlyComponents(st, files[..|files| - 1], cp, sep);
      var s := ScanFiles(st, files[..|files| - 1], cp, sep);
      if s.err.None? {
        var path := files[|files| - 1];
        var cls := ClassNameOfPath(path, sep);
        if cls.Some? && cls.value in cp && cp[cls.value].kind.ClassType? {
          RegisterAnnotationsOnlyComponents(s.store, cls.value, cp[cls.value].annotations, cp);
        }
      }
    }
  }

  /**
   * After the annotation pass, whether or not it threw, every bound name
   * belongs to a constructible class (never an interface or an annotation
   * type) carrying `@MyService`, `@MyRepository` or `@MyComponent`, under
   * that annotation's `value()` or, when empty, the derived key of the class
   * name.
   */
  lemma AnnotationPhaseOnlyComponents(scan: Option<string>, files: seq<string>, cp: Classpath, sep: char)
    ensures OnlyComponents(AnnotationPhase(Empty, scan, files, cp, sep).store, cp)
  {
    if scan.Some? && scan.value != "" {
      ScanFilesOnlyComponents(Empty, files, cp, sep);
    }
  }

  /** The names a class's annotations register under. */
  ghost predicate RegistersUnder(cls: string, anns: seq<Annotation>, names: set<string>) {
    forall a :: a in anns && ComponentValue(a).Some? ==>
      RegisteredName(ComponentValue(a).value, cls).Some? && RegisteredName(ComponentValue(a).value, cls).value in names
  }

  lemma {:induction false} RegisterAnnotationsComplete(st: Store, cls: string, ty: TypeDesc, anns: seq<Annotation>)
    requires RegisterAnnotations(st, cls, ty, anns).err.None?
    ensures RegistersUnder(cls, anns, RegisterAnnotations(st, cls, ty, anns).store.beans.Keys)
    decreases |anns|
  {
    if anns != [] {
      var prefix := anns[..|anns| - 1];
      var s := RegisterAnnotations(st, cls, ty, prefix);
      RegisterAnnotationsComplete(st, cls, ty, prefix);
      var r := RegisterAnnotations(st, cls, ty, anns);
      assert s.store.beans.Keys <= r.store.beans.Keys;
      assert anns == prefix + [anns[|anns| - 1]];
    }
  }

  /** `path` names a loadable class `cls` that is not an interface or an annotation type. */
  ghost predicate ScannedClass(path: string, cp: Classpath, sep: char, cls: string) {
    ClassNameOfPath(path, sep) == Some(cls) && cls in cp && cp[cls].kind.ClassType?
  }

  lemma ScanFileComplete(st: Store, path: string, cp: Classpath, sep: char, cls: string)
    requires ScanFile(st, path, cp, sep).err.None? && ScannedClass(path, cp, sep, cls)
    ensures RegistersUnder(cls, cp[cls].annotations, ScanFile(st, path, cp, sep).store.beans.Keys)
  {
    RegisterAnnotationsComplete(st, cls, cp[cls], cp[cls].annotations);
  }

  lemma RegistersUnderGrows(cls: string, anns: seq<Annotation>, names: set<string>, more: set<string>)
    requires RegistersUnder(cls, anns, names) && names <= more
    ensures RegistersUnder(cls, anns, more)
  {
  }

  /**
   * When the annotation pass completes, every component annotation of every
   * scanned class has its name bound in the map (possibly to a later object
   * under the same name).
   */
  lemma {:induction false} ScanFilesComplete(st: Store, files: seq<string>, cp: Classpath, sep: char, k: nat, cls: string)
    requires ScanFiles(st, files, cp, sep).err.None?
    requires k < |files| && ScannedClass(files[k], cp, sep, cls)
    ensures RegistersUnder(cls, cp[cls].annotations, ScanFiles(st, files, cp, sep).store.beans.Keys)
    decreases |files|
  {
    var prefix := files[..|files| - 1];
    var s := ScanFiles(st, prefix, cp, sep);
    var r := ScanFiles(st, files, cp, sep);
    assert s.err.None? && r == ScanFile(s.store, files[|files| - 1], cp, sep);
    if k < |prefix| {
      assert files[k] == prefix[k];
      ScanFilesComplete(st, prefix, cp, sep, k, cls);
      RegistersUnderGrows(cls, cp[cls].annotations, s.store.beans.Keys, r.store.beans.Keys);
    } else {
      assert k == |files| - 1;
      ScanFileComplete(s.store, files[k], cp, sep, cls);
    }
  }

  /** Some component annotation among `anns` of class `cls` registers under `n`. */
  ghost predicate RegistersName(cls: string, anns: seq<Annotation>, n: string) {
    exists a :: a in anns && ComponentValue(a).Some? && RegisteredName(ComponentValue(a).value, cls) == Some(n)
  }

  /** The file at `path` is a scanned class with a component annotation registering under `n`. */
  ghost predicate FileRegisters(path: string, cp: Classpath, sep: char, n: string) {
    exists cls :: ScannedClass(path, cp, sep, cls) && RegistersName(cls, cp[cls].annotations, n)
  }

  /**
   * A class whose annotation loop completes and that registers under `n`
   * leaves `n` bound to one of the objects of that class it just created,
   * whatever `n` was bound to before: a repeated name is overwritten.
   */
  lemma {:induction false} RegisterAnnotationsBindsOwn(st: Store, cls: string, ty: TypeDesc, anns: seq<Annotation>, n: string)
    requires RegisterAnnotations(st, cls, ty, anns).err.None? && RegistersName(cls, anns, n)
    ensures var r := RegisterAnnotations(st, cls, ty, anns).store;
      n in r.beans && |st.heap| <= r.beans[n] < |r.heap| && r.heap[r.beans[n]].cls == cls
    decreases |anns|
  {
    var prefix, a := anns[..|anns| - 1], anns[|anns| - 1];
    var s := RegisterAnnotations(st, cls, ty, prefix);
    var r := RegisterAnnotations(st, cls, ty, anns);
    assert s.err.None? && r == RegisterAnnotation(s.store, cls, ty, a);
    if ComponentValue(a).Some? && RegisteredName(ComponentValue(a).value, cls) == Some(n) {
      assert r.store == Put(s.store, n, cls, ty);
    } else {
      var b :| b in anns && ComponentValue(b).Some? && RegisteredName(ComponentValue(b).value, cls) == Some(n);
      assert b in prefix by { assert anns == prefix + [a]; }
      RegisterAnnotationsBindsOwn(st, cls, ty, prefix, n);
      RegisterAnnotationKeeps(s.store, cls, ty, a, n);
    }
  }

  /** An annotation that does not register under `n` leaves `n`'s object as it was. */
  lemma RegisterAnnotationKeeps(st: Store, cls: string, ty: TypeDesc, a: Annotation, n: string)
    requires n in st.beans && st.beans[n] < |st.heap|
    requires !(ComponentValue(a).Some? && RegisteredName(ComponentValue(a).value, cls) == Some(n))
    ensures var r := RegisterAnnotation(st, cls, ty, a).store;
      n in r.beans && r.beans[n] == st.beans[n] && r.heap[r.beans[n]] == st.heap[st.beans[n]]
  {
    var r := RegisterAnnotation(st, cls, ty, a).store;
    assert r.heap[..|st.heap|] == st.heap;
    assert r.heap[st.beans[n]] == r.heap[..|st.heap|][st.beans[n]];
  }

  /** A class none of whose annotations registers under `n` leaves `n`'s object as it was. */
  lemma {:induction false} RegisterAnnotationsKeep(st: Store, cls: string, ty: TypeDesc, anns: seq<Annotation>, n: string)
    requires n in st.beans && st.beans[n] < |st.heap| && !RegistersName(cls, anns, n)
    ensures var r := RegisterAnnotations(st, cls, ty, anns).store;
      n in r.beans && r.beans[n] == st.beans[n] && r.heap[r.beans[n]] == st.heap[st.beans[n]]
    decreases |anns|
  {
    if anns != [] {
      var prefix, a := anns[..|anns| - 1], anns[|anns| - 1];
      assert !RegistersName(cls, prefix, n) by {
        forall b | b in prefix ensures b in anns { assert anns == prefix + [a]; }
      }
      RegisterAnnotationsKeep(st, cls, ty, prefix, n);
      var s := RegisterAnnotations(st, cls, ty, prefix);
      if s.err.None? {
        RegisterAnnotationKeeps(s.store, cls, ty, a, n);
      }
    }
  }

  /** A file that does not register under `n` leaves `n`'s object as it was. */
  lemma ScanFileKeeps(st: Store, path: string, cp: Classpath, sep: char, n: string)
    requires n in st.beans && st.beans[n] < |st.heap| && !FileRegisters(path, cp, sep, n)
    ensures var r := ScanFile(st, path, cp, sep).store;
      n in r.beans && r.beans[n] == st.beans[n] && r.heap[r.beans[n]] == st.heap[st.beans[n]]
  {
    var cls := ClassNameOfPath(path, sep);
    if cls.Some? && cls.value in cp && cp[cls.value].kind.ClassType? {
      assert ScannedClass(path, cp, sep, cls.value);
      RegisterAnnotationsKeep(st, cls.value, cp[cls.value], cp[cls.value].annotations, n);
    }
  }

  /**
   * Names bound by the annotation pass follow "same name overwrites": when the
   * scan completes, a name is bound to an object of the LAST scanned class
   * registering under it.
   */
  lemma {:induction false} ScanFilesBindLast(st: Store, files: seq<string>, cp: Classpath, sep: char, k: nat, cls: string, n: string)
    requires ScanFiles(st, files, cp, sep).err.None?
    requires k < |files| && ScannedClass(files[k], cp, sep, cls) && RegistersName(cls, cp[cls].annotations, n)
    requires forall j :: k < j < |files| ==> !FileRegisters(files[j], cp, sep, n)
    ensures var r := ScanFiles(st, files, cp, sep).store;
      n in r.beans && |st.heap| <= r.beans[n] < |r.heap| && r.heap[r.beans[n]].cls == cls
    decreases |files|
  {
    var prefix, last := files[..|files| - 1], files[|files| - 1];
    var s := ScanFiles(st, prefix, cp, sep);
    var r := ScanFiles(st, files, cp, sep);
    assert s.err.None? && r == ScanFile(s.store, last, cp, sep);
    if k < |prefix| {
      assert files[k] == prefix[k];
      assert forall j :: k < j < |prefix| ==> prefix[j] == files[j];
      ScanFilesBindLast(st, prefix, cp, sep, k, cls, n);
      assert !FileRegisters(last, cp, sep, n);
      ScanFileKeeps(s.store, last, cp, sep, n);
    } else {
      assert ScanFile(s.store, last, cp, sep) == RegisterAnnotations(s.store, cls, cp[cls], cp[cls].annotations);
      RegisterAnnotationsBindsOwn(s.store, cls, cp[cls], cp[cls].annotations, n);
    }
  }

  // ---------------------------------------------------------------------
  // `<bean>` entries are created after the annotated classes and win.
  // ---------------------------------------------------------------------

  /** `defs[i]` is the last entry with its id. */
  ghost predicate LastWithId(defs: seq<BeanDef>, i: int)
    requires 0 <= i < |defs|
  {
    forall j :: i < j < |defs| ==> defs[j].id != defs[i].id
  }

  /**
   * When `parserXmlBean` completes, each id is bound to a new object of the
   * class of the LAST entry with that id, replacing whatever the annotation
   * pass bound to it.
   */
  lemma {:induction false} CreateXmlBeansBindLast(st: Store, defs: seq<BeanDef>, cp: Classpath, i: nat)
    requires st.Valid() && CreateXmlBeans(st, defs, cp).err.None?
    requires i < |defs| && LastWithId(defs, i)
    ensures var r := CreateXmlBeans(st, defs, cp).store;
      defs[i].id in r.beans && |st.heap| <= r.beans[defs[i].id] < |r.heap| && r.heap[r.beans[defs[i].id]].cls == defs[i].cls
    decreases |defs|
  {
    var prefix, d := defs[..|defs| - 1], defs[|defs| - 1];
    var s := CreateXmlBeans(st, prefix, cp).store;
    assert CreateXmlBeans(st, defs, cp).store == Put(s, d.id, d.cls, cp[d.cls]);
    if i < |prefix| {
      assert prefix[i] == defs[i] && LastWithId(prefix, i);
      CreateXmlBeansBindLast(st, prefix, cp, i);
    }
  }

  /** Names no `<bean>` entry uses keep the binding the annotation pass gave them. */
  lemma {:induction false} CreateXmlBeansKeepOthers(st: Store, defs: seq<BeanDef>, cp: Classpath, n: string)
    requires CreateXmlBeans(st, defs, cp).err.None?
    requires n in st.beans && forall i :: 0 <= i < |defs| ==> defs[i].id != n
    ensures var r := CreateXmlBeans(st, defs, cp).store;
      n in r.beans && r.beans[n] == st.beans[n]
    decreases |defs|
  {
    if defs != [] {
      var prefix, d := defs[..|defs| - 1], defs[|defs| - 1];
      assert forall i :: 0 <= i < |prefix| ==> prefix[i] == defs[i];
      CreateXmlBeansKeepOthers(st, prefix, cp, n);
      assert d.id != n;
    }
  }

  /**
   * A name both a scanned class and a `<bean>` entry register is, once both
   * creation passes complete, bound to the object of the `<bean>` entry.
   */
  lemma XmlIdWinsCollision(c: XmlConfig, files: seq<string>, cp: Classpath, sep: char, i: nat)
    requires CreationPhase(c, files, cp, sep).err.None?
    requires i < |c.beans| && LastWithId(c.beans, i)
    ensures var s := AnnotationPhase(Empty, c.componentScan, files, cp, sep).store;
      var r := CreationPhase(c, files, cp, sep).store;
      c.beans[i].id in r.beans && r.beans[c.beans[i].id] >= |s.heap| && r.heap[r.beans[c.beans[i].id]].cls == c.beans[i].cls
  {
    var s := AnnotationPhase(Empty, c.componentScan, files, cp, sep);
    CreateXmlBeansBindLast(s.store, c.beans, cp, i);
  }

  // ---------------------------------------------------------------------
  // Autowiring.
  // ---------------------------------------------------------------------

  /** Declared fields have distinct names. */
  ghost predicate DistinctNames(fs: seq<FieldDesc>) {
    forall i, j :: 0 <= i < j < |fs| ==> fs[i].name != fs[j].name
  }

  /** No field declared after the `k`-th has its name. */
  ghost predicate LastOfItsName(fs: seq<FieldDesc>, k: nat)
    requires k < |fs|
  {
    forall j :: k < j < |fs| ==> fs[j].name != fs[k].name
  }

  /**
   * `field.set` accepts what autowiring assigns to `f` in `st`: the object
   * bound to its lookup name, or null. A field without `@MyAutowired` is
   * never assigned.
   */
  ghost predicate Accepted(st: Store, f: FieldDesc)
    requires st.Valid()
  {
    f.autowired.Some? ==> SetAccepts(f.kind, ClassOf(st, Lookup(st.beans, InjectionName(f))))
  }

  /** Every field of the object `ref` accepts its autowired value. */
  ghost predicate ObjectAutowirable(st: Store, ref: Ref)
    requires st.Valid() && ref < |st.heap|
  {
    forall i :: 0 <= i < |st.heap[ref].ty.fields| ==> Accepted(st, st.heap[ref].ty.fields[i])
  }

  /** Every bound object accepts its autowired values. */
  ghost predicate Autowirable(st: Store)
    requires st.Valid()
  {
    forall n :: n in st.beans ==> ObjectAutowirable(st, st.beans[n])
  }

  /** `order` lists every object the map binds, each once, and nothing else: `values()`. */
  ghost predicate Enumerates(order: seq<Ref>, beans: map<string, Ref>) {
    && (forall i, j :: 0 <= i < j < |order| ==> order[i] != order[j])
    && (forall ref :: ref in order <==> ref in beans.Values)
  }

  /** An object's `@MyAutowired` loop completes exactly when every field accepts its value. */
  lemma {:induction false} AutowireFieldsCompletes(st: Store, cls: string, fields: map<string, Option<Ref>>, fs: seq<FieldDesc>)
    requires st.Valid()
    ensures AutowireFields(st, cls, fields, fs).err.None? <==> forall i :: 0 <= i < |fs| ==> Accepted(st, fs[i])
    decreases |fs|
  {
    if fs != [] {
      var prefix := fs[..|fs| - 1];
      AutowireFieldsCompletes(st, cls, fields, prefix);
      assert forall i :: 0 <= i < |prefix| ==> prefix[i] == fs[i];
    }
  }

  /**
   * The first field that rejects its value ends the loop: the exception names
   * that field, and the fields declared before it keep their assignments.
   */
  lemma {:induction false} AutowireFieldsRejects(st: Store, cls: string, fields: map<string, Option<Ref>>, fs: seq<FieldDesc>, k: nat)
    requires st.Valid() && k < |fs| && !Accepted(st, fs[k])
    requires forall i :: 0 <= i < k ==> Accepted(st, fs[i])
    ensures var r := AutowireFields(st, cls, fields, fs);
      r.err == Some(FieldRejected(cls, fs[k].name)) && r.fields == AutowireFields(st, cls, fields, fs[..k]).fields
    decreases |fs|
  {
    var prefix := fs[..|fs| - 1];
    if k < |fs| - 1 {
      assert prefix[k] == fs[k] && prefix[..k] == fs[..k];
      AutowireFieldsRejects(st, cls, fields, prefix, k);
    } else {
      assert prefix == fs[..k];
      assert forall i :: 0 <= i < |prefix| ==> Accepted(st, prefix[i]);
      AutowireFieldsCompletes(st, cls, fields, prefix);
    }
  }

  /**
   * After a loop that completes, an `@MyAutowired` field that no later field
   * shares a name with holds `get` of its lookup name (null on a miss).
   */
  lemma {:induction false} AutowireFieldsAt(st: Store, cls: string, fields: map<string, Option<Ref>>, fs: seq<FieldDesc>, k: nat)
    requires st.Valid() && AutowireFields(st, cls, fields, fs).err.None?
    requires k < |fs| && fs[k].autowired.Some? && LastOfItsName(fs, k)
    ensures var r := AutowireFields(st, cls, fields, fs).fields;
      fs[k].name in r && r[fs[k].name] == Lookup(st.beans, InjectionName(fs[k]))
    decreases |fs|
  {
    var last := |fs| - 1;
    if k < last {
      var prefix := fs[..last];
      assert prefix[k] == fs[k];
      assert LastOfItsName(prefix, k);
      assert AutowireFields(st, cls, fields, prefix).err.None?;
      AutowireFieldsAt(st, cls, fields, prefix, k);
      AutowireFieldsOther(st, cls, fields, fs, fs[k].name);
    }
  }

  /** A field declared last that does not carry `name` leaves the value under `name` as the earlier fields set it. */
  lemma AutowireFieldsOther(st: Store, cls: string, fields: map<string, Option<Ref>>, fs: seq<FieldDesc>, name: string)
    requires st.Valid() && fs != [] && (fs[|fs| - 1].autowired.None? || fs[|fs| - 1].name != name)
    ensures var r, p := AutowireFields(st, cls, fields, fs).fields, AutowireFields(st, cls, fields, fs[..|fs| - 1]).fields;
      (name in r <==> name in p) && (name in p ==> r[name] == p[name])
  {
  }

  /**
   * Autowiring injects nothing but objects the map binds: a field it leaves
   * non-null either already held that value or holds a bound object.
   */
  lemma {:induction false} AutowireInjectsBound(st: Store, cls: string, fields: map<string, Option<Ref>>, fs: seq<FieldDesc>, name: string)
    requires st.Valid()
    requires var r := AutowireFields(st, cls, fields, fs).fields; name in r && r[name].Some?
    ensures var r := AutowireFields(st, cls, fields, fs).fields;
      (name in fields && r[name] == fields[name]) || r[name].value in st.beans.Values
    decreases |fs|
  {
    if fs != [] {
      var prefix := fs[..|fs| - 1];
      var f := fs[|fs| - 1];
      var prev := AutowireFields(st, cls, fields, prefix);
      if f.autowired.None? || f.name != name || prev.err.Some? || !Accepted(st, f) {
        AutowireInjectsBound(st, cls, fields, prefix, name);
      } else if InjectionName(f) in st.beans {
        assert st.beans[InjectionName(f)] in st.beans.Values;
      }
    }
  }

  /**
   * The pass completes exactly when every object it visits accepts its
   * autowired values; which objects it visited before, and with which
   * fields, does not matter.
   */
  lemma {:induction false} AutowirePassErr(st: Store, order: seq<Ref>)
    requires st.Valid()
    ensures AutowirePass(st, order).err.None? <==>
      forall j :: 0 <= j < |order| && order[j] in st.beans.Values ==> order[j] < |st.heap| && ObjectAutowirable(st, order[j])
    decreases |order|
  {
    if order != [] {
      var prefix, ref := order[..|order| - 1], order[|order| - 1];
      AutowirePassErr(st, prefix);
      assert forall j :: 0 <= j < |prefix| ==> prefix[j] == order[j];
      var s := AutowirePass(st, prefix);
      if s.err.None? && ref in st.beans.Values {
        BoundIsCreated(st, ref);
        var inst := s.store.heap[ref];
        assert inst.cls == st.heap[ref].cls && inst.ty == st.heap[ref].ty;
        AutowireFieldsCompletes(st, inst.cls, inst.fields, inst.ty.fields);
        assert AutowirePass(st, order).err.None? <==> ObjectAutowirable(st, ref);
      } else {
        assert AutowirePass(st, order) == s;
      }
    }
  }

  /** Over all of `values()`, the pass completes exactly when every bound object accepts its autowired values. */
  lemma AutowirePassCompletes(st: Store, order: seq<Ref>)
    requires st.Valid() && Enumerates(order, st.beans)
    ensures AutowirePass(st, order).err.None? <==> Autowirable(st)
  {
    AutowirePassErr(st, order);
    if AutowirePass(st, order).err.None? {
      forall n | n in st.beans
        ensures ObjectAutowirable(st, st.beans[n])
      {
        assert st.beans[n] in st.beans.Values;
        var j :| 0 <= j < |order| && order[j] == st.beans[n];
      }
    } else {
      var j :| 0 <= j < |order| && order[j] in st.beans.Values && !(order[j] < |st.heap| && ObjectAutowirable(st, order[j]));
      var n :| n in st.beans && st.beans[n] == order[j];
      BoundIsCreated(st, order[j]);
    }
  }

  /**
   * When the pass completes over a list of distinct objects, each bound one
   * it lists has exactly the fields its own `@MyAutowired` loop produced, and
   * every other object is untouched.
   */
  lemma {:induction false} AutowirePassFields(st: Store, order: seq<Ref>, ref: Ref)
    requires st.Valid() && AutowirePass(st, order).err.None? && ref < |st.heap|
    requires forall i, j :: 0 <= i < j < |order| ==> order[i] != order[j]
    ensures var inst := st.heap[ref];
      AutowirePass(st, order).store.heap[ref].fields ==
        if ref in order && ref in st.beans.Values then AutowireFields(st, inst.cls, inst.fields, inst.ty.fields).fields
        else inst.fields
    decreases |order|
  {
    if order != [] {
      var prefix, last := order[..|order| - 1], order[|order| - 1];
      assert order[..|order| - 1] == prefix;
      var s := AutowirePass(st, prefix);
      assert s.err.None?;
      AutowirePassFields(st, prefix, ref);
      assert ref in order <==> ref in prefix || ref == last;
      if last == ref && ref in st.beans.Values {
        assert ref !in prefix;
        assert s.store.heap[ref].cls == st.heap[ref].cls && s.store.heap[ref].ty == st.heap[ref].ty;
      }
    }
  }

  /**
   * After `populateAnnotionPropertyForBean` completes, each `@MyAutowired`
   * field of a bound object holds the object bound to its lookup name, or
   * null when nothing is bound to it: a miss alone throws nothing.
   */
  lemma AutowireResolves(st: Store, order: seq<Ref>, ref: Ref, k: nat)
    requires st.Valid() && Enumerates(order, st.beans) && Autowirable(st) && ref in st.beans.Values
    requires ref < |st.heap| && k < |st.heap[ref].ty.fields| && st.heap[ref].ty.fields[k].autowired.Some?
    requires DistinctNames(st.heap[ref].ty.fields)
    ensures var f := st.heap[ref].ty.fields[k];
      var fields := AutowirePass(st, order).store.heap[ref].fields;
      f.name in fields && fields[f.name] == Lookup(st.beans, InjectionName(f))
  {
    var inst := st.heap[ref];
    var fs := inst.ty.fields;
    AutowirePassCompletes(st, order);
    AutowirePassFields(st, order, ref);
    var n :| n in st.beans && st.beans[n] == ref;
    assert ObjectAutowirable(st, ref);
    AutowireFieldsCompletes(st, inst.cls, inst.fields, fs);
    assert LastOfItsName(fs, k);
    AutowireFieldsAt(st, inst.cls, inst.fields, fs, k);
  }

  /**
   * Creation completes before wiring begins: after the whole bootstrap, an
   * `@MyAutowired` field of any bound object holds what the FINAL map binds
   * to its lookup name, `<bean>` entries and forward references included, and
   * setter wiring neither rebinds names nor touches fields.
   */
  lemma BootAutowiresAgainstFinalMap(c: XmlConfig, files: seq<string>, cp: Classpath, sep: char, order: seq<Ref>, n: string, k: nat)
    requires CreationPhase(c, files, cp, sep).err.None?
    requires var created := CreationPhase(c, files, cp, sep).store;
      Enumerates(order, created.beans) && Autowirable(created)
    requires var created := CreationPhase(c, files, cp, sep).store;
      n in created.beans && k < |created.heap[created.beans[n]].ty.fields|
      && created.heap[created.beans[n]].ty.fields[k].autowired.Some?
      && DistinctNames(created.heap[created.beans[n]].ty.fields)
    ensures var created := CreationPhase(c, files, cp, sep).store;
      var booted := Boot(Some(c), files, cp, sep, order).store;
      var f := created.heap[created.beans[n]].ty.fields[k];
      booted.beans == created.beans
      && f.name in booted.heap[booted.beans[n]].fields
      && booted.heap[booted.beans[n]].fields[f.name] == Lookup(booted.beans, InjectionName(f))
  {
    var created := CreationPhase(c, files, cp, sep).store;
    AutowirePassCompletes(created, order);
    AutowireResolves(created, order, created.beans[n], k);
  }

  /**
   * A field whose declared type rejects its autowired value stops the
   * bootstrap inside `populateAnnotionPropertyForBean`: the exception names
   * a bound object's class and that field, no setter is ever called, and the
   * map stays as creation left it.
   */
  lemma BootStopsOnRejection(c: XmlConfig, files: seq<string>, cp: Classpath, sep: char, order: seq<Ref>)
    requires CreationPhase(c, files, cp, sep).err.None?
    requires var created := CreationPhase(c, files, cp, sep).store;
      Enumerates(order, created.beans) && !Autowirable(created)
    ensures var created := CreationPhase(c, files, cp, sep).store;
      var r := Boot(Some(c), files, cp, sep, order);
      && r.err.Some? && r.err.value.FieldRejected?
      && r.store.beans == created.beans
      && |r.store.heap| == |created.heap|
      && forall i :: 0 <= i < |created.heap| ==> r.store.heap[i].setterCalls == created.heap[i].setterCalls
  {
    var created := CreationPhase(c, files, cp, sep).store;
    AutowirePassCompletes(created, order);
    AutowirePassRejected(created, order);
  }

  /** A pass that throws throws `Field.set`'s IllegalArgumentException. */
  lemma {:induction false} AutowirePassRejected(st: Store, order: seq<Ref>)
    requires st.Valid()
    ensures AutowirePass(st, order).err.Some? ==> AutowirePass(st, order).err.value.FieldRejected?
    decreases |order|
  {
    if order != [] {
      AutowirePassRejected(st, order[..|order| - 1]);
    }
  }

  // ---------------------------------------------------------------------
  // Setter wiring.
  // ---------------------------------------------------------------------

  /** A `<property>` of the bean `id` can be wired without throwing. */
  ghost predicate Wirable(st: Store, id: string, p: PropertyDef)
    requires st.Valid()
  {
    && SetterName(p.name).Some?
    && id in st.beans
    && (SetterName(p.name).value in st.heap[st.beans[id]].ty.publicMethods ==> p.ref in st.beans)
  }

  /** The setter loop throws exactly when a method matches and `ref` is unbound. */
  lemma {:induction false} InvokeSettersThrows(st: Store, id: string, parent: Ref, setter: string, ref: string, ms: seq<string>)
    requires st.Valid() && parent < |st.heap|
    ensures InvokeSetters(st, id, parent, setter, ref, ms).err.Some? <==> setter in ms && ref !in st.beans
    ensures InvokeSetters(st, id, parent, setter, ref, ms).err.Some? ==>
      InvokeSetters(st, id, parent, setter, ref, ms).err == Some(UnregisteredRef(id, ref))
    decreases |ms|
  {
    if ms != [] {
      var prefix := ms[..|ms| - 1];
      InvokeSettersThrows(st, id, parent, setter, ref, prefix);
      assert ms == prefix + [ms[|ms| - 1]];
    }
  }

  /** No public method has the setter's name: nothing happens, even for an unbound `ref`. */
  lemma {:induction false} MissingSetterIgnored(st: Store, id: string, parent: Ref, setter: string, ref: string, ms: seq<string>)
    requires st.Valid() && parent < |st.heap| && setter !in ms
    ensures InvokeSetters(st, id, parent, setter, ref, ms) == Step(st, None)
    decreases |ms|
  {
    if ms != [] {
      assert forall m :: m in ms[..|ms| - 1] ==> m in ms;
      MissingSetterIgnored(st, id, parent, setter, ref, ms[..|ms| - 1]);
    }
  }

  lemma WirePropertyThrows(st: Store, id: string, p: PropertyDef)
    requires st.Valid()
    ensures WireProperty(st, id, p).err.None? <==> Wirable(st, id, p)
  {
    if SetterName(p.name).Some? && id in st.beans {
      InvokeSettersThrows(st, id, st.beans[id], SetterName(p.name).value, p.ref, st.heap[st.beans[id]].ty.publicMethods);
    }
  }

  /** Setter calls do not change whether a property can be wired. */
  lemma WirableIgnoresCalls(a: Store, b: Store, id: string, p: PropertyDef)
    requires a.Valid() && b.Valid() && SameButCalls(a, b)
    ensures Wirable(a, id, p) <==> Wirable(b, id, p)
  {
  }

  /** Every property of `ps` can be wired on `st`. */
  ghost predicate AllWirable(st: Store, id: string, ps: seq<PropertyDef>)
    requires st.Valid()
  {
    forall k :: 0 <= k < |ps| ==> Wirable(st, id, ps[k])
  }

  lemma AllWirableIgnoresCalls(a: Store, b: Store, id: string, ps: seq<PropertyDef>)
    requires a.Valid() && b.Valid() && SameButCalls(a, b)
    ensures AllWirable(a, id, ps) <==> AllWirable(b, id, ps)
  {
    forall k | 0 <= k < |ps|
      ensures Wirable(a, id, ps[k]) <==> Wirable(b, id, ps[k])
    {
      WirableIgnoresCalls(a, b, id, ps[k]);
    }
  }

  lemma AllWirableSplit(st: Store, id: string, ps: seq<PropertyDef>)
    requires st.Valid() && ps != []
    ensures AllWirable(st, id, ps) <==> AllWirable(st, id, ps[..|ps| - 1]) && Wirable(st, id, ps[|ps| - 1])
  {
    assert forall k :: 0 <= k < |ps| - 1 ==> ps[..|ps| - 1][k] == ps[k];
  }

  lemma WirePropertiesStep(st: Store, id: string, ps: seq<PropertyDef>)
    requires st.Valid() && ps != []
    ensures WireProperties(st, id, ps).err.None? <==>
      WireProperties(st, id, ps[..|ps| - 1]).err.None? && Wirable(st, id, ps[|ps| - 1])
  {
    var s := WireProperties(st, id, ps[..|ps| - 1]);
    if s.err.None? {
      WirePropertyThrows(s.store, id, ps[|ps| - 1]);
      WirableIgnoresCalls(st, s.store, id, ps[|ps| - 1]);
    }
  }

  lemma {:induction false} WirePropertiesThrows(st: Store, id: string, ps: seq<PropertyDef>)
    requires st.Valid()
    ensures WireProperties(st, id, ps).err.None? <==> AllWirable(st, id, ps)
    decreases |ps|
  {
    if ps != [] {
      WirePropertiesThrows(st, id, ps[..|ps| - 1]);
      WirePropertiesStep(st, id, ps);
      AllWirableSplit(st, id, ps);
    }
  }

  /**
   * `populateXmlPropertyForBean` completes exactly when every `<property>`
   * has a derivable setter name, its bean is bound, and its `ref` is bound
   * whenever the bean has a public method with that setter's name. Whether it
   * completes or not, the map and every field stay as they were (the
   * pass's own postcondition).
   */
  lemma {:induction false} XmlWireCompletes(st: Store, defs: seq<BeanDef>)
    requires st.Valid()
    ensures XmlWirePass(st, defs).err.None? <==> AllDefsWirable(st, defs)
    decreases |defs|
  {
    if defs != [] {
      XmlWireCompletes(st, defs[..|defs| - 1]);
      XmlWirePassStep(st, defs);
      AllDefsWirableSplit(st, defs);
    }
  }

  /** Every `<property>` of every `<bean>` can be wired. */
  ghost predicate AllDefsWirable(st: Store, defs: seq<BeanDef>)
    requires st.Valid()
  {
    forall i :: 0 <= i < |defs| ==> AllWirable(st, defs[i].id, defs[i].properties)
  }

  lemma AllDefsWirableSplit(st: Store, defs: seq<BeanDef>)
    requires st.Valid() && defs != []
    ensures var last := defs[|defs| - 1];
      AllDefsWirable(st, defs) <==> AllDefsWirable(st, defs[..|defs| - 1]) && AllWirable(st, last.id, last.properties)
  {
    assert forall i :: 0 <= i < |defs| - 1 ==> defs[..|defs| - 1][i] == defs[i];
  }

  /** The last `<bean>` is wired without throwing exactly when all its properties are wirable in the original store. */
  lemma XmlWirePassStep(st: Store, defs: seq<BeanDef>)
    requires st.Valid() && defs != []
    ensures var last := defs[|defs| - 1];
      XmlWirePass(st, defs).err.None? <==>
      XmlWirePass(st, defs[..|defs| - 1]).err.None? && AllWirable(st, last.id, last.properties)
  {
    var s := XmlWirePass(st, defs[..|defs| - 1]);
    var last := defs[|defs| - 1];
    if s.err.None? {
      WirePropertiesThrows(s.store, last.id, last.properties);
      AllWirableIgnoresCalls(st, s.store, last.id, last.properties);
    }
  }
}

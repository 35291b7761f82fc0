/**
 * What setter wiring does to the beans: which public methods
 * `populateXmlPropertyForBean` invokes, on which bean, and with which
 * argument.
 */
module WiringFacts {
  import opened Values
  import opened BeanNames
  import opened Descriptors
  import opened Registry

  /** `c` is in `b` when it is in a prefix `a` of `b`. */
  lemma InPrefix<T>(a: seq<T>, b: seq<T>, c: T)
    requires a <= b && c in a
    ensures c in b
  {
    var i :| 0 <= i < |a| && a[i] == c;
    assert b[i] == a[i];
  }

  /** A store that differs only by setter calls has the same map and the same types. */
  lemma SameTypes(a: Store, b: Store, obj: Ref)
    requires SameButCalls(a, b) && obj < |a.heap|
    ensures a.beans == b.beans && a.heap[obj].ty == b.heap[obj].ty
  {
  }

  /** The setter loop only appends: each object's calls before are a prefix of its calls after. */
  lemma {:induction false} InvokeSettersExtends(st: Store, id: string, parent: Ref, setter: string, ref: string, ms: seq<string>, obj: Ref)
    requires st.Valid() && parent < |st.heap| && obj < |st.heap|
    ensures st.heap[obj].setterCalls <= InvokeSetters(st, id, parent, setter, ref, ms).store.heap[obj].setterCalls
    decreases |ms|
  {
    if ms != [] {
      var s := InvokeSetters(st, id, parent, setter, ref, ms[..|ms| - 1]).store;
      InvokeSettersExtends(st, id, parent, setter, ref, ms[..|ms| - 1], obj);
      var r := InvokeSetters(st, id, parent, setter, ref, ms).store;
      assert s.heap[obj].setterCalls <= r.heap[obj].setterCalls by {
        if r != s {
          assert r.heap[obj].setterCalls == s.heap[obj].setterCalls + if obj == parent then [SetterCall(setter, s.beans[ref])] else [];
        }
      }
    }
  }

  /** Wiring one property only appends calls. */
  lemma WirePropertyExtends(s: Store, id: string, p: PropertyDef, obj: Ref)
    requires s.Valid() && obj < |s.heap|
    ensures s.heap[obj].setterCalls <= WireProperty(s, id, p).store.heap[obj].setterCalls
  {
    if SetterName(p.name).Some? && id in s.beans {
      InvokeSettersExtends(s, id, s.beans[id], SetterName(p.name).value, p.ref, s.heap[s.beans[id]].ty.publicMethods, obj);
    }
  }

  /** Wiring the properties of one `<bean>` only appends calls. */
  lemma {:induction false} WirePropertiesExtend(s: Store, id: string, ps: seq<PropertyDef>, obj: Ref)
    requires s.Valid() && obj < |s.heap|
    ensures s.heap[obj].setterCalls <= WireProperties(s, id, ps).store.heap[obj].setterCalls
    decreases |ps|
  {
    if ps != [] {
      var m := WireProperties(s, id, ps[..|ps| - 1]);
      WirePropertiesExtend(s, id, ps[..|ps| - 1], obj);
      if m.err.None? {
        WirePropertyExtends(m.store, id, ps[|ps| - 1], obj);
      }
    }
  }

  /** With a method of that name among `ms`, the call of `setter` with `arg` is among the matching calls. */
  lemma MatchingHolds(ms: seq<string>, setter: string, arg: Ref)
    requires setter in ms
    ensures SetterCall(setter, arg) in Matching(ms, setter, arg)
  {
    var r := Matching(ms, setter, arg);
    assert r[0] in r;
  }

  // ---------------------------------------------------------------------
  // Completeness: each wirable property invokes its setter with its ref.
  // ---------------------------------------------------------------------

  /**
   * A setter loop that completes invokes the setter once for each public
   * method of that name, every time with the object `ref` is bound to, on
   * the parent alone; with no such method nothing changes.
   */
  lemma {:induction false} InvokeSettersRecords(st: Store, id: string, parent: Ref, setter: string, ref: string, ms: seq<string>)
    requires st.Valid() && parent < |st.heap| && InvokeSetters(st, id, parent, setter, ref, ms).err.None?
    ensures setter !in ms ==> InvokeSetters(st, id, parent, setter, ref, ms).store == st
    ensures setter in ms ==> ref in st.beans
    ensures setter in ms ==>
      var r := InvokeSetters(st, id, parent, setter, ref, ms).store;
      r.heap == st.heap[parent := st.heap[parent].(setterCalls := st.heap[parent].setterCalls + Matching(ms, setter, st.beans[ref]))]
    decreases |ms|
  {
    if ms != [] {
      var prefix, m := ms[..|ms| - 1], ms[|ms| - 1];
      InvokeSettersLast(st, id, parent, setter, ref, ms);
      InvokeSettersRecords(st, id, parent, setter, ref, prefix);
      assert setter in ms <==> setter in prefix || m == setter by {
        assert ms == prefix + [m];
      }
      if setter in ms {
        var arg := st.beans[ref];
        var s := InvokeSetters(st, id, parent, setter, ref, prefix).store;
        var r := InvokeSetters(st, id, parent, setter, ref, ms).store;
        var extra := Matching(prefix, setter, arg);
        assert Matching(ms, setter, arg) == extra + if m == setter then [SetterCall(setter, arg)] else [];
        if setter !in prefix {
          WithCallsNone(st.heap, parent);
        }
        assert s.heap == WithCalls(st.heap, parent, extra);
        if m == setter {
          assert r.heap == WithCalls(s.heap, parent, [SetterCall(setter, arg)]);
          WithCallsTwice(st.heap, parent, extra, [SetterCall(setter, arg)]);
        } else {
          assert extra + [] == extra;
          assert r == s;
        }
        assert r.heap == WithCalls(st.heap, parent, Matching(ms, setter, arg));
      }
    }
  }

  /** `h` with `extra` appended to the calls of the object at `parent`. */
  function WithCalls(h: seq<Instance>, parent: nat, extra: seq<SetterCall>): seq<Instance>
    requires parent < |h|
  {
    h[parent := h[parent].(setterCalls := h[parent].setterCalls + extra)]
  }

  lemma WithCallsNone(h: seq<Instance>, parent: nat)
    requires parent < |h|
    ensures WithCalls(h, parent, []) == h
  {
    assert h[parent].setterCalls + [] == h[parent].setterCalls;
  }

  lemma WithCallsTwice(h: seq<Instance>, parent: nat, a: seq<SetterCall>, b: seq<SetterCall>)
    requires parent < |h|
    ensures WithCalls(WithCalls(h, parent, a), parent, b) == WithCalls(h, parent, a + b)
  {
    assert h[parent].setterCalls + a + b == h[parent].setterCalls + (a + b);
  }

  /** A completed setter loop is the completed loop over all but the last method, then the last method. */
  lemma InvokeSettersLast(st: Store, id: string, parent: Ref, setter: string, ref: string, ms: seq<string>)
    requires st.Valid() && parent < |st.heap| && ms != [] && InvokeSetters(st, id, parent, setter, ref, ms).err.None?
    ensures var s := InvokeSetters(st, id, parent, setter, ref, ms[..|ms| - 1]);
      && s.err.None? && s.store.beans == st.beans
      && (ms[|ms| - 1] == setter ==> ref in st.beans)
      && InvokeSetters(st, id, parent, setter, ref, ms).store ==
        if ms[|ms| - 1] == setter then AppendCall(s.store, parent, SetterCall(setter, st.beans[ref])) else s.store
  {
  }

  /**
   * A `<property>` that is wired without throwing invokes the setter its
   * name derives to on the bean `id` is bound to, with the object its `ref`
   * is bound to, once per public method of that name; nothing else changes.
   */
  lemma WirePropertyRecords(st: Store, id: string, p: PropertyDef)
    requires st.Valid() && WireProperty(st, id, p).err.None?
    ensures id in st.beans && SetterName(p.name).Some?
    ensures var obj, setter := st.beans[id], SetterName(p.name).value;
      var ms := st.heap[obj].ty.publicMethods;
      var r := WireProperty(st, id, p).store;
      && (setter !in ms ==> r == st)
      && (setter in ms ==> p.ref in st.beans)
      && (setter in ms ==>
          r.heap == st.heap[obj := st.heap[obj].(setterCalls := st.heap[obj].setterCalls + Matching(ms, setter, st.beans[p.ref]))])
  {
    InvokeSettersRecords(st, id, st.beans[id], SetterName(p.name).value, p.ref, st.heap[st.beans[id]].ty.publicMethods);
  }

  /** The `j`-th property's setter call is among the bean's calls once its properties are wired. */
  lemma {:induction false} WirePropertiesRecord(st: Store, id: string, ps: seq<PropertyDef>, j: nat)
    requires st.Valid() && WireProperties(st, id, ps).err.None?
    requires j < |ps| && id in st.beans && SetterName(ps[j].name).Some?
    requires SetterName(ps[j].name).value in st.heap[st.beans[id]].ty.publicMethods
    ensures var obj, r := st.beans[id], WireProperties(st, id, ps).store;
      ps[j].ref in st.beans && SetterCall(SetterName(ps[j].name).value, st.beans[ps[j].ref]) in r.heap[obj].setterCalls
    decreases |ps|
  {
    var prefix := ps[..|ps| - 1];
    WirePropertiesLast(st, id, ps);
    if j < |prefix| {
      assert prefix[j] == ps[j];
      WirePropertiesRecord(st, id, prefix, j);
      RecordKept(WireProperties(st, id, prefix).store, id, ps[|ps| - 1], st.beans[id], SetterCall(SetterName(ps[j].name).value, st.beans[ps[j].ref]));
    } else {
      assert j == |ps| - 1;
      SameTypes(st, WireProperties(st, id, prefix).store, st.beans[id]);
      RecordLast(WireProperties(st, id, prefix).store, id, ps[|ps| - 1]);
    }
  }

  /** A call already made stays among the bean's calls when one more property is wired. */
  lemma RecordKept(s: Store, id: string, p: PropertyDef, obj: Ref, c: SetterCall)
    requires s.Valid() && obj < |s.heap| && c in s.heap[obj].setterCalls
    ensures c in WireProperty(s, id, p).store.heap[obj].setterCalls
  {
    WirePropertyExtends(s, id, p, obj);
    InPrefix(s.heap[obj].setterCalls, WireProperty(s, id, p).store.heap[obj].setterCalls, c);
  }

  /** A completed property loop is the completed loop over all but the last property, then the last property. */
  lemma WirePropertiesLast(st: Store, id: string, ps: seq<PropertyDef>)
    requires st.Valid() && ps != [] && WireProperties(st, id, ps).err.None?
    ensures var s := WireProperties(st, id, ps[..|ps| - 1]);
      && s.err.None? && s.store.Valid() && SameButCalls(st, s.store)
      && WireProperty(s.store, id, ps[|ps| - 1]).err.None?
      && WireProperties(st, id, ps).store == WireProperty(s.store, id, ps[|ps| - 1]).store
  {
  }

  /** The call a wired property asks for is among its bean's calls afterwards. */
  lemma RecordLast(s: Store, id: string, p: PropertyDef)
    requires s.Valid() && WireProperty(s, id, p).err.None?
    requires id in s.beans && SetterName(p.name).Some? && SetterName(p.name).value in s.heap[s.beans[id]].ty.publicMethods
    ensures p.ref in s.beans
    ensures SetterCall(SetterName(p.name).value, s.beans[p.ref]) in WireProperty(s, id, p).store.heap[s.beans[id]].setterCalls
  {
    var obj, setter := s.beans[id], SetterName(p.name).value;
    WirePropertyRecords(s, id, p);
    MatchingHolds(s.heap[obj].ty.publicMethods, setter, s.beans[p.ref]);
  }

  /**
   * When `populateXmlPropertyForBean` completes, every `<property>` whose
   * bean has a public setter of the derived name has had that setter invoked
   * on the bean with the object its `ref` is bound to.
   */
  lemma {:induction false} XmlWirePassRecords(st: Store, defs: seq<BeanDef>, k: nat, j: nat)
    requires st.Valid() && XmlWirePass(st, defs).err.None?
    requires k < |defs| && j < |defs[k].properties|
    requires defs[k].id in st.beans && SetterName(defs[k].properties[j].name).Some?
    requires SetterName(defs[k].properties[j].name).value in st.heap[st.beans[defs[k].id]].ty.publicMethods
    ensures var d, r := defs[k], XmlWirePass(st, defs).store;
      var p := d.properties[j];
      p.ref in st.beans && SetterCall(SetterName(p.name).value, st.beans[p.ref]) in r.heap[st.beans[d.id]].setterCalls
    decreases |defs|
  {
    var prefix, last := defs[..|defs| - 1], defs[|defs| - 1];
    XmlWirePassLast(st, defs);
    var s := XmlWirePass(st, prefix).store;
    var obj := st.beans[defs[k].id];
    if k < |prefix| {
      assert prefix[k] == defs[k];
      XmlWirePassRecords(st, prefix, k, j);
      var p := defs[k].properties[j];
      RecordKeptBean(s, last.id, last.properties, obj, SetterCall(SetterName(p.name).value, st.beans[p.ref]));
    } else {
      assert k == |defs| - 1;
      SameTypes(st, s, obj);
      WirePropertiesRecord(s, last.id, last.properties, j);
    }
  }

  /** A completed setter pass is the completed pass over all but the last `<bean>`, then the last one. */
  lemma XmlWirePassLast(st: Store, defs: seq<BeanDef>)
    requires st.Valid() && defs != [] && XmlWirePass(st, defs).err.None?
    ensures var s, last := XmlWirePass(st, defs[..|defs| - 1]), defs[|defs| - 1];
      && s.err.None? && s.store.Valid() && SameButCalls(st, s.store)
      && WireProperties(s.store, last.id, last.properties).err.None?
      && XmlWirePass(st, defs).store == WireProperties(s.store, last.id, last.properties).store
  {
  }

  /** A call already made stays among the bean's calls when one more `<bean>` is wired. */
  lemma RecordKeptBean(s: Store, id: string, ps: seq<PropertyDef>, obj: Ref, c: SetterCall)
    requires s.Valid() && obj < |s.heap| && c in s.heap[obj].setterCalls
    ensures c in WireProperties(s, id, ps).store.heap[obj].setterCalls
  {
    WirePropertiesExtend(s, id, ps, obj);
    InPrefix(s.heap[obj].setterCalls, WireProperties(s, id, ps).store.heap[obj].setterCalls, c);
  }

  // ---------------------------------------------------------------------
  // Soundness: nothing but those calls is ever made.
  // ---------------------------------------------------------------------

  /** The property `p` of bean `id` asks for `c` on `obj`: the bean, the setter and the argument all match. */
  ghost predicate Requests(st: Store, id: string, p: PropertyDef, obj: Ref, c: SetterCall) {
    && id in st.beans && st.beans[id] == obj && obj < |st.heap|
    && SetterName(p.name) == Some(c.setter) && c.setter in st.heap[obj].ty.publicMethods
    && p.ref in st.beans && st.beans[p.ref] == c.arg
  }

  /** Some `<property>` of some `<bean>` of `defs` asks for `c` on `obj`. */
  ghost predicate RequestedBy(st: Store, defs: seq<BeanDef>, obj: Ref, c: SetterCall) {
    exists k, j :: 0 <= k < |defs| && 0 <= j < |defs[k].properties| && Requests(st, defs[k].id, defs[k].properties[j], obj, c)
  }

  /** A call the setter loop adds, even one that later throws, is `setter` with `ref`'s object on the parent. */
  lemma {:induction false} InvokeSettersOnly(st: Store, id: string, parent: Ref, setter: string, ref: string, ms: seq<string>, i: nat, c: SetterCall)
    requires st.Valid() && parent < |st.heap| && i < |st.heap|
    requires var r := InvokeSetters(st, id, parent, setter, ref, ms).store;
      c in r.heap[i].setterCalls && c !in st.heap[i].setterCalls
    ensures i == parent && setter in ms && ref in st.beans && c == SetterCall(setter, st.beans[ref])
    decreases |ms|
  {
    var prefix, m := ms[..|ms| - 1], ms[|ms| - 1];
    assert ms == prefix + [m];
    var s := InvokeSetters(st, id, parent, setter, ref, prefix);
    var r := InvokeSetters(st, id, parent, setter, ref, ms);
    if c in s.store.heap[i].setterCalls {
      InvokeSettersOnly(st, id, parent, setter, ref, prefix, i, c);
    } else {
      assert r.store != s.store;
      assert r.store == AppendCall(s.store, parent, SetterCall(setter, s.store.beans[ref]));
    }
  }

  /** A call wiring one `<property>` adds is the one that property asks for. */
  lemma WirePropertyOnly(st: Store, id: string, p: PropertyDef, i: nat, c: SetterCall)
    requires st.Valid() && i < |st.heap|
    requires c in WireProperty(st, id, p).store.heap[i].setterCalls && c !in st.heap[i].setterCalls
    ensures Requests(st, id, p, i, c)
  {
    InvokeSettersOnly(st, id, st.beans[id], SetterName(p.name).value, p.ref, st.heap[st.beans[id]].ty.publicMethods, i, c);
  }

  /** A call wiring a `<bean>`'s properties adds is one some property of it asks for. */
  lemma {:induction false} WirePropertiesOnly(st: Store, id: string, ps: seq<PropertyDef>, i: nat, c: SetterCall)
    requires st.Valid() && i < |st.heap|
    requires c in WireProperties(st, id, ps).store.heap[i].setterCalls && c !in st.heap[i].setterCalls
    ensures exists j :: 0 <= j < |ps| && Requests(st, id, ps[j], i, c)
    decreases |ps|
  {
    var prefix := ps[..|ps| - 1];
    WirePropertiesLastAny(st, id, ps);
    var s := WireProperties(st, id, prefix);
    if c in s.store.heap[i].setterCalls {
      WirePropertiesOnly(st, id, prefix, i, c);
      var j :| 0 <= j < |prefix| && Requests(st, id, prefix[j], i, c);
      assert ps[j] == prefix[j];
    } else {
      WirePropertyOnly(s.store, id, ps[|ps| - 1], i, c);
      RequestsIgnoresCalls(st, s.store, id, ps[|ps| - 1], i, c);
    }
  }

  /** The property loop, however it ends, is the loop over all but the last property, then the last one if that loop did not throw. */
  lemma WirePropertiesLastAny(st: Store, id: string, ps: seq<PropertyDef>)
    requires st.Valid() && ps != []
    ensures var s := WireProperties(st, id, ps[..|ps| - 1]);
      && s.store.Valid() && SameButCalls(st, s.store)
      && WireProperties(st, id, ps).store == if s.err.Some? then s.store else WireProperty(s.store, id, ps[|ps| - 1]).store
  {
  }

  /** Setter calls do not change what a property asks for. */
  lemma RequestsIgnoresCalls(a: Store, b: Store, id: string, p: PropertyDef, obj: Ref, c: SetterCall)
    requires SameButCalls(a, b) && obj < |a.heap|
    ensures Requests(a, id, p, obj, c) <==> Requests(b, id, p, obj, c)
  {
    SameTypes(a, b, obj);
  }

  /**
   * Every setter call `populateXmlPropertyForBean` makes, whether or not it
   * completes, is asked for by some `<property>`: the right bean, a public
   * method of the derived name, and the object the `ref` is bound to.
   */
  lemma {:induction false} XmlWirePassOnly(st: Store, defs: seq<BeanDef>, i: nat, c: SetterCall)
    requires st.Valid() && i < |st.heap|
    requires c in XmlWirePass(st, defs).store.heap[i].setterCalls && c !in st.heap[i].setterCalls
    ensures RequestedBy(st, defs, i, c)
    decreases |defs|
  {
    var prefix, last := defs[..|defs| - 1], defs[|defs| - 1];
    XmlWirePassLastAny(st, defs);
    var s := XmlWirePass(st, prefix);
    if c in s.store.heap[i].setterCalls {
      XmlWirePassOnly(st, prefix, i, c);
      var k, j :| 0 <= k < |prefix| && 0 <= j < |prefix[k].properties| && Requests(st, prefix[k].id, prefix[k].properties[j], i, c);
      assert defs[k] == prefix[k];
    } else {
      WirePropertiesOnly(s.store, last.id, last.properties, i, c);
      var j :| 0 <= j < |last.properties| && Requests(s.store, last.id, last.properties[j], i, c);
      RequestsIgnoresCalls(st, s.store, last.id, last.properties[j], i, c);
      assert defs[|defs| - 1] == last;
    }
  }

  /** The setter pass, however it ends, is the pass over all but the last `<bean>`, then the last one if that pass did not throw. */
  lemma XmlWirePassLastAny(st: Store, defs: seq<BeanDef>)
    requires st.Valid() && defs != []
    ensures var s, last := XmlWirePass(st, defs[..|defs| - 1]), defs[|defs| - 1];
      && s.store.Valid() && SameButCalls(st, s.store)
      && XmlWirePass(st, defs).store == if s.err.Some? then s.store else WireProperties(s.store, last.id, last.properties).store
  {
  }
}

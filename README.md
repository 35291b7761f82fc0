# simple_framework_spring: the container, its transaction proxies and the transfer service

This project models three parts of the `simple_framework_spring` inversion-of-control container in Dafny:

- The bootstrap of `BeanFactory`, in order:
  1. `singletonBeanMap` is filled from the component-annotated classes found under the scan root.
  2. It is filled again from the `<bean>` entries of the configuration file.
  3. `@MyAutowired` fields are assigned from the map. A field whose declared type rejects the value throws.
  4. `<property name=".." ref=".."/>` entries are wired through public setters.
- `getBean`, with its decision between handing out the object itself and a new JDK or cglib proxy.
- `ProxyFactory.dealWithMethodProxy`, the interceptor that brackets a call with `beginTransaction` and `commit`, or `rollback` and rethrow.
- `TransferServiceImpl.transfer` over an in-memory account store.

Each file has one role:

- `values.dfy`: Java-level values: references, exceptions and call outcomes.
- `names.dfy`: the string steps:
  - `dealWithBeanNameToKey` and `dealWithBeanNameToMethod`;
  - the class name `scanAndCreateBean` derives from a file path.
- `descriptors.dfy`: what reflection and the XML parser hand the container, as data. That is type descriptors with their annotations, fields, declared and public methods, plus the parsed `<bean>` entries.
- `registry.dfy`: each bootstrap pass as a function on a value `Store`. A `Store` is the name-to-object map plus every object created so far. A pass that throws returns the store as far as it got, together with the exception.
- `registry_facts.dfy`: what the bootstrap guarantees:
  - which names the annotation pass binds, and that a repeated name is overwritten;
  - that `<bean>` entries win name collisions;
  - that autowiring sees the final map, and exactly when a field rejects its value;
  - exactly when setter wiring throws.
- `wiring_facts.dfy`: which setter calls setter wiring makes: every one a `<property>` asks for, and no other.
- `factory.dfy`: `class BeanFactory`, whose fields `singletonBeanMap` and `heap` are updated in place by loops. Each loop method is proved equal to the corresponding pass function. The file also holds `getBean` and `dealWithProxyBean` with their flag-scanning loops.
- `proxies.dfy`: the interceptor as a specification function and its lemmas. It also holds the classes `ProxyFactory` and `Proxy`, whose methods are proved to append exactly the interceptor's calls to a shared call log. That log is shared by a recording fake transaction manager and a recording fake `Method.invoke`.
- `transfer.dfy`: `transfer` over a fake `AccountDao` that keeps balances and a call log, and throws a configured exception at a chosen call. Java `int` arithmetic is modelled with wrap-around.

The model follows the code as written, including:

- **The bootstrap swallows its exceptions.** A failing pass leaves the map partly built and the container in use; bootstrap does not abort.
- **Every `getBean` of a wrapped object makes a new proxy.** A transactional bean is therefore not identity-stable.
- **The proxy's flag is `isMethodProxy` alone.** A class marked `@MyTransactional` only at class level gets a proxy that never opens a transaction. One marked method makes every method of the proxy transactional.
- **A rollback that throws replaces the original exception.** The two failures are not combined.
- **The exception rethrown after rollback is the `InvocationTargetException` from `Method.invoke`,** not the target's own exception.
- **`getBean` returns null for an unbound name.** It raises no "not found" error.

## Model

| member | source | states |
|---|---|---|
| BeanNames.SimpleName | src/main/java/com/athena/factory/BeanFactory.java:328-329 | the result is the longest dot-free suffix of the name: no '.', a suffix, preceded by '.' when shorter than the name |
| BeanNames.BeanKey | src/main/java/com/athena/factory/BeanFactory.java:327-332 | defined exactly when the simple name is non-empty (`substring(0, 1)` throws otherwise); the key is the simple name with its first letter lower-cased: same length, first character `ToLower` of the simple name's, the rest unchanged; it holds no '.' and does not start with an upper-case letter |
| BeanNames.SetterName | src/main/java/com/athena/factory/BeanFactory.java:341-346 | defined exactly when the simple name is non-empty; "set" followed by the simple name with its first letter upper-cased: three characters longer, fourth character `ToUpper` of the simple name's first, the rest the simple name's; no '.', and the fourth character not lower-case |
| BeanNames.SimpleNameOfDotless | src/main/java/com/athena/factory/BeanFactory.java:328-329 | a name without '.' is its own simple name |
| BeanNames.BeanKeyIdempotent | src/main/java/com/athena/factory/BeanFactory.java:327-332 | deriving a key from a derived key gives the same key |
| BeanNames.SetterKeyRoundTrip | src/main/java/com/athena/factory/BeanFactory.java:327-346 | the key of a setter name without its "set" is the key of the original name |
| BeanNames.SetterAgreesWithKey | src/main/java/com/athena/factory/BeanFactory.java:327-346 | the setter name and the key agree after their first letter, and their first letters agree up to case |
| BeanNames.BeforeFirstDot | src/main/java/com/athena/factory/BeanFactory.java:103-104 | `split("\\.")[0]`: the longest prefix holding no '.', followed by '.' when shorter than the path |
| BeanNames.IndexOfFrom | src/main/java/com/athena/factory/BeanFactory.java:106 | `indexOf`: an occurrence at or after the start, with none before it, or -1 when there is none |
| BeanNames.Replace | src/main/java/com/athena/factory/BeanFactory.java:110 | `replace` of one character: same length, that character replaced at every position, every other character kept |
| BeanNames.ClassNameOfPath | src/main/java/com/athena/factory/BeanFactory.java:102-110 | a class name exists exactly when "com" occurs before the first '.' (`substring(-1)` throws otherwise); it has at least three characters, contains no separator (every one became '.'), and starts with "com" |
| BeanNames.BeforeFirstDotOfStem | src/main/java/com/athena/factory/BeanFactory.java:103-104 | a file `<stem>.<ext>` with a dot-free stem yields the stem |
| BeanNames.ClassNameCutsAtFirstCom | src/main/java/com/athena/factory/BeanFactory.java:102-110 | the class name of `<stem>.<ext>` is the stem cut at its FIRST "com", wherever that lies, with separators turned into dots |
| BeanNames.CanonicalClassFile | src/main/java/com/athena/factory/BeanFactory.java:102-110 | a file `<root>com<rel>.<ext>` whose root holds no "com" yields `com` + `rel` with separators turned into dots |
| Registry.Put | src/main/java/com/athena/factory/BeanFactory.java:150 | `put` binds the name to a NEW object of the class, appended after every existing one, with no fields set and no setter calls; every other binding and object is unchanged, and validity is kept |
| Descriptors.ComponentValue | src/main/java/com/athena/factory/BeanFactory.java:129-144 | `@MyService`, `@MyRepository` and `@MyComponent`, and no other annotation, give a name, their `value()`; any other annotation is skipped |
| Registry.RegisteredName | src/main/java/com/athena/factory/BeanFactory.java:145-149 | a non-empty `value()` is the name as given; an empty one gives the class's simple name with its first letter lower-cased, and no name when the simple name is empty; a name is never empty |
| Registry.RegisterAnnotation | src/main/java/com/athena/factory/BeanFactory.java:130-150 | one annotation never unbinds a name or drops an object, and keeps the store valid |
| Registry.RegisterAnnotations | src/main/java/com/athena/factory/BeanFactory.java:124-152 | the annotation loop of one class never unbinds a name or drops an object |
| Registry.RegisterAnnotationsStops | src/main/java/com/athena/factory/BeanFactory.java:129-151 | once an annotation throws, later annotations of the class change nothing |
| Registry.ScanFile | src/main/java/com/athena/factory/BeanFactory.java:102-119 | one scanned file never unbinds a name or drops an object |
| Registry.ScanFiles | src/main/java/com/athena/factory/BeanFactory.java:94-122 | the scan never unbinds a name or drops an object |
| Registry.ScanFilesStops | src/main/java/com/athena/factory/BeanFactory.java:97-121 | once a file throws, later files change nothing |
| Registry.AnnotationPhase | src/main/java/com/athena/factory/BeanFactory.java:73-85 | the annotation pass never unbinds a name or drops an object |
| Registry.CreateXmlBean | src/main/java/com/athena/factory/BeanFactory.java:166-177 | one `<bean>` never unbinds a name or drops an object |
| Registry.CreateXmlBeans | src/main/java/com/athena/factory/BeanFactory.java:161-179 | the `<bean>` pass never unbinds a name or drops an object |
| Registry.CreateXmlBeansStops | src/main/java/com/athena/factory/BeanFactory.java:164-178 | once a `<bean>` throws, later entries change nothing |
| Registry.CreationPhase | src/main/java/com/athena/factory/BeanFactory.java:47-51 | after both creation passes every bound name refers to a created object |
| Registry.Lookup | src/main/java/com/athena/factory/BeanFactory.java:210 | `get`: the bound object exactly when the name is bound, null otherwise |
| Registry.InjectionName | src/main/java/com/athena/factory/BeanFactory.java:206-209 | a non-empty `value()` is the lookup name as given; otherwise the field type's simple name with its first letter lower-cased; never empty |
| Registry.AutowireFields | src/main/java/com/athena/factory/BeanFactory.java:195-213 | the field loop of one object never removes an assigned field, and what it throws is `Field.set`'s exception for that object's class |
| Registry.AutowireFieldsStops | src/main/java/com/athena/factory/BeanFactory.java:201-212 | once a field rejects its value, later fields are not assigned |
| Registry.AutowireFieldsReadsClasses | src/main/java/com/athena/factory/BeanFactory.java:206-212 | the field loop reads only the map and the objects' classes, so assigning fields elsewhere does not change its outcome |
| Registry.AutowireObject | src/main/java/com/athena/factory/BeanFactory.java:189-214 | one object's loop changes only that object's fields, keeping the map, classes and setter calls |
| Registry.AutowirePass | src/main/java/com/athena/factory/BeanFactory.java:188-216 | the pass over `values()`, in any order, keeps the map, every object's class and setter calls, and the store's validity, whether or not it throws |
| Registry.AutowirePassStops | src/main/java/com/athena/factory/BeanFactory.java:189-214 | once an object's loop throws, later objects are not visited |
| Registry.InvokeSetters | src/main/java/com/athena/factory/BeanFactory.java:242-258 | the setter loop changes no binding, class or field: it only records setter calls |
| Registry.Matching | src/main/java/com/athena/factory/BeanFactory.java:243-252 | the calls the setter loop makes for the methods `ms`: one per method named `setter`, each with the same argument, none when no method has that name |
| Registry.InvokeSettersStops | src/main/java/com/athena/factory/BeanFactory.java:243-258 | once a matching setter finds its `ref` unbound, later methods change nothing |
| Registry.WireProperty | src/main/java/com/athena/factory/BeanFactory.java:237-258 | one `<property>` changes no binding, class or field |
| Registry.WireProperties | src/main/java/com/athena/factory/BeanFactory.java:236-259 | the properties of one `<bean>` change no binding, class or field |
| Registry.WirePropertiesStops | src/main/java/com/athena/factory/BeanFactory.java:236-259 | once a property throws, later properties of the `<bean>` change nothing |
| Registry.XmlWirePass | src/main/java/com/athena/factory/BeanFactory.java:225-261 | setter wiring changes no binding, class or field, whether or not it throws |
| Registry.XmlWirePassStops | src/main/java/com/athena/factory/BeanFactory.java:228-260 | once a `<bean>` throws, later entries change nothing |
| Registry.Boot | src/main/java/com/athena/factory/BeanFactory.java:36-63 | the store the swallowed bootstrap leaves binds only created objects, however far it got; autowiring runs only after both creation passes, and setter wiring only after autowiring completes |
| RegistryFacts.RegisterAnnotationsOnlyComponents | src/main/java/com/athena/factory/BeanFactory.java:129-150 | the annotation loop binds only constructible classes carrying a component annotation, under that annotation's name |
| RegistryFacts.ScanFilesOnlyComponents | src/main/java/com/athena/factory/BeanFactory.java:97-121 | the scan binds only such classes, never interfaces or annotation types |
| RegistryFacts.AnnotationPhaseOnlyComponents | src/main/java/com/athena/factory/BeanFactory.java:73-152 | after the annotation pass, thrown or not, every bound name belongs to a constructible class with `@MyService`, `@MyRepository` or `@MyComponent` registering under that name: `value()`, or the derived key when empty |
| RegistryFacts.RegisterAnnotationsComplete | src/main/java/com/athena/factory/BeanFactory.java:129-150 | when the loop completes, every component annotation of the class has its name bound |
| RegistryFacts.ScanFileComplete | src/main/java/com/athena/factory/BeanFactory.java:111-119 | a completed scan of a class file binds every name its component annotations register under |
| RegistryFacts.ScanFilesComplete | src/main/java/com/athena/factory/BeanFactory.java:94-122 | when the scan completes, every scanned class has all its component names bound |
| RegistryFacts.RegisterAnnotationsBindsOwn | src/main/java/com/athena/factory/BeanFactory.java:129-150 | a class whose loop completes and that registers under `n` leaves `n` bound to an object of that class created by the loop, whatever `n` was bound to before |
| RegistryFacts.RegisterAnnotationKeeps | src/main/java/com/athena/factory/BeanFactory.java:130-150 | an annotation that does not register under `n` leaves `n` bound to the same object, unchanged |
| RegistryFacts.RegisterAnnotationsKeep | src/main/java/com/athena/factory/BeanFactory.java:129-150 | a class none of whose annotations registers under `n` leaves `n` bound to the same object, unchanged |
| RegistryFacts.ScanFileKeeps | src/main/java/com/athena/factory/BeanFactory.java:102-119 | a file that does not register under `n` leaves `n` bound to the same object, unchanged |
| RegistryFacts.ScanFilesBindLast | src/main/java/com/athena/factory/BeanFactory.java:97-150 | same name overwrites: after a completed scan, `n` is bound to a new object of the LAST scanned class registering under it |
| RegistryFacts.CreateXmlBeansBindLast | src/main/java/com/athena/factory/BeanFactory.java:164-178 | each id is bound to a new object of the class of the LAST `<bean>` with that id |
| RegistryFacts.CreateXmlBeansKeepOthers | src/main/java/com/athena/factory/BeanFactory.java:164-178 | a name no `<bean>` uses keeps the binding the annotation pass gave it |
| RegistryFacts.XmlIdWinsCollision | src/main/java/com/athena/factory/BeanFactory.java:48-51 | a name registered by both passes ends bound to the `<bean>` entry's object, created after every annotated one |
| RegistryFacts.AutowireFieldsCompletes | src/main/java/com/athena/factory/BeanFactory.java:195-213 | an object's field loop completes exactly when every `@MyAutowired` field's declared type accepts the object bound to its lookup name, or null |
| RegistryFacts.AutowireFieldsRejects | src/main/java/com/athena/factory/BeanFactory.java:195-213 | the first field that rejects its value throws `Field.set`'s exception naming that field, and the fields declared before it keep their assignments |
| RegistryFacts.AutowireFieldsAt | src/main/java/com/athena/factory/BeanFactory.java:195-213 | when an object's loop completes, an `@MyAutowired` field that no later field shares a name with holds `get` of its lookup name, null on a miss |
| RegistryFacts.AutowireInjectsBound | src/main/java/com/athena/factory/BeanFactory.java:206-212 | a non-null field after autowiring held that value before or holds an object the map binds |
| RegistryFacts.AutowirePassErr | src/main/java/com/athena/factory/BeanFactory.java:189-214 | the pass completes exactly when every bound object it visits accepts its autowired values, whatever was assigned before |
| RegistryFacts.AutowirePassCompletes | src/main/java/com/athena/factory/BeanFactory.java:189-214 | over all of `values()`, in any order, the pass completes exactly when every bound object accepts its autowired values |
| RegistryFacts.AutowirePassFields | src/main/java/com/athena/factory/BeanFactory.java:189-214 | a completed pass over distinct objects gives each bound object it lists exactly its own loop's fields and leaves every other object's fields alone |
| RegistryFacts.AutowirePassRejected | src/main/java/com/athena/factory/BeanFactory.java:212 | the only exception the pass throws is `Field.set`'s IllegalArgumentException |
| RegistryFacts.AutowireResolves | src/main/java/com/athena/factory/BeanFactory.java:188-216 | when every bound object accepts its values, after the pass each `@MyAutowired` field of a bound object holds the object bound to its `value()` or derived name, or null on a miss |
| RegistryFacts.BootAutowiresAgainstFinalMap | src/main/java/com/athena/factory/BeanFactory.java:47-57 | both creation passes finish before wiring: after a bootstrap whose autowiring completes, autowired fields see the FINAL map (`<bean>` entries and forward references included), and setter wiring neither rebinds a name nor changes a field |
| RegistryFacts.BootStopsOnRejection | src/main/java/com/athena/factory/BeanFactory.java:53-57 | a field that rejects its value stops the bootstrap in autowiring with `Field.set`'s exception: the map stays as creation left it and no setter is ever called |
| RegistryFacts.InvokeSettersThrows | src/main/java/com/athena/factory/BeanFactory.java:243-252 | the setter loop throws exactly when a public method has the setter's name and `ref` is unbound, and the exception is the "not registered" one |
| RegistryFacts.MissingSetterIgnored | src/main/java/com/athena/factory/BeanFactory.java:243-246 | with no public method of the setter's name, nothing happens, even for an unbound `ref` |
| RegistryFacts.WirePropertyThrows | src/main/java/com/athena/factory/BeanFactory.java:237-252 | one `<property>` completes exactly when its setter name derives, its bean is bound, and its `ref` is bound whenever the setter exists |
| RegistryFacts.WirePropertiesThrows | src/main/java/com/athena/factory/BeanFactory.java:236-259 | the properties of a `<bean>` complete exactly when each is wirable in the store before wiring |
| RegistryFacts.XmlWireCompletes | src/main/java/com/athena/factory/BeanFactory.java:225-261 | setter wiring completes exactly when every property of every `<bean>` is wirable |
| WiringFacts.InvokeSettersRecords | src/main/java/com/athena/factory/BeanFactory.java:243-252 | a completed setter loop appends to the parent, and to no other object, one call of the setter with the object `ref` is bound to per public method of that name; with none it changes nothing |
| WiringFacts.WirePropertyRecords | src/main/java/com/athena/factory/BeanFactory.java:237-252 | a completed `<property>` calls its derived setter on its bean with the object its `ref` is bound to, once per public method of that name, and changes nothing else |
| WiringFacts.WirePropertiesRecord | src/main/java/com/athena/factory/BeanFactory.java:236-259 | after a `<bean>`'s properties complete, each property with a public setter has its call recorded on the bean |
| WiringFacts.XmlWirePassRecords | src/main/java/com/athena/factory/BeanFactory.java:225-261 | after setter wiring completes, every `<property>` whose bean has a public setter of the derived name has had it called with the object its `ref` is bound to |
| WiringFacts.InvokeSettersOnly | src/main/java/com/athena/factory/BeanFactory.java:243-252 | every call the setter loop adds, even when it later throws, is the setter with `ref`'s object, on the parent |
| WiringFacts.WirePropertyOnly | src/main/java/com/athena/factory/BeanFactory.java:237-252 | every call one `<property>` adds is the one that property asks for |
| WiringFacts.WirePropertiesOnly | src/main/java/com/athena/factory/BeanFactory.java:236-259 | every call a `<bean>`'s properties add is asked for by one of them |
| WiringFacts.XmlWirePassOnly | src/main/java/com/athena/factory/BeanFactory.java:225-261 | every setter call the pass makes, whether or not it completes, is asked for by some `<property>`: right bean, a public method of the derived name, the object its `ref` is bound to |
| WiringFacts.InvokeSettersExtends | src/main/java/com/athena/factory/BeanFactory.java:243-252 | the setter loop only adds calls: every object's earlier calls stay, in order, at the front of its record |
| WiringFacts.WirePropertyExtends | src/main/java/com/athena/factory/BeanFactory.java:237-252 | one `<property>` never drops or reorders a recorded setter call |
| WiringFacts.WirePropertiesExtend | src/main/java/com/athena/factory/BeanFactory.java:236-259 | a `<bean>`'s properties never drop or reorder a recorded setter call |
| Factory.GetBeanOutcomes | src/main/java/com/athena/factory/BeanFactory.java:263-272 | empty name: the "不能为空" exception; unbound name: null; a bad "proxyFactory" entry: the cast fails; otherwise the object itself exactly when neither class nor declared method is `@MyTransactional` |
| Factory.ProxyChoice | src/main/java/com/athena/factory/BeanFactory.java:307-316 | a marked object gets a JDK proxy exactly when its class has interfaces, with flag `isMethodProxy` and the object as target |
| Factory.ClassOnlyMarkingNeverTransacts | src/main/java/com/athena/factory/BeanFactory.java:286-311 | a class marked only at class level is wrapped with flag false, and a call through it makes no transaction call |
| Factory.OneMarkedMethodMarksAll | src/main/java/com/athena/factory/BeanFactory.java:296-306 | one marked method gives flag true, and any method called opens a transaction exactly when a manager is injected |
| Factory.ScanTransactional | src/main/java/com/athena/factory/BeanFactory.java:284-306 | the two flag loops compute the marking exactly: `isGlobleProxy` holds exactly when the class carries `@MyTransactional` (`ClassTransactional`), `isMethodProxy` exactly when some declared method does (`MethodTransactional`) |
| Factory.ProxyDecision | src/main/java/com/athena/factory/BeanFactory.java:281-318 | a bad "proxyFactory" entry fails the cast first; the object itself exactly when neither class nor declared method is `@MyTransactional`; null dereference exactly when marked and no "proxyFactory" is bound; otherwise a proxy of the object, JDK exactly when the class has interfaces, flag the method-level marking |
| Factory.Exposing | src/main/java/com/athena/factory/BeanFactory.java:263-272 | the "不能为空" exception exactly for an empty name; null exactly for an unbound non-empty one; otherwise the bound object or a proxy of it |
| Factory.BeanFactory.Bootstrap | src/main/java/com/athena/factory/BeanFactory.java:36-63 | the map and objects the static initializer leaves are `Boot`'s, for the order the map yields its values in |
| Factory.BeanFactory.ParserAnnotationBean | src/main/java/com/athena/factory/BeanFactory.java:73-85 | changes the container as `AnnotationPhase` says and throws what it throws |
| Factory.BeanFactory.ScanAndCreateBean | src/main/java/com/athena/factory/BeanFactory.java:94-122 | the file loop changes the container as `ScanFiles` says |
| Factory.BeanFactory.ScanFile | src/main/java/com/athena/factory/BeanFactory.java:102-119 | one file changes the container as `ScanFile` says |
| Factory.BeanFactory.ParserBeanAnnotation | src/main/java/com/athena/factory/BeanFactory.java:124-152 | the annotation loop changes the container as `RegisterAnnotations` says |
| Factory.BeanFactory.RegisterComponent | src/main/java/com/athena/factory/BeanFactory.java:130-150 | one annotation changes the container as `RegisterAnnotation` says |
| Factory.BeanFactory.Put | src/main/java/com/athena/factory/BeanFactory.java:150 | `put` of a new instance is `Put` on the container |
| Factory.BeanFactory.ParserXmlBean | src/main/java/com/athena/factory/BeanFactory.java:161-179 | the `<bean>` loop changes the container as `CreateXmlBeans` says |
| Factory.BeanFactory.CreateXmlBean | src/main/java/com/athena/factory/BeanFactory.java:166-177 | one `<bean>` changes the container as `CreateXmlBean` says |
| Factory.BeanFactory.AutowiredFields | src/main/java/com/athena/factory/BeanFactory.java:193-214 | the field loop computes `AutowireFields`, stopping at the first rejected field, and changes nothing |
| Factory.BeanFactory.AutowireBean | src/main/java/com/athena/factory/BeanFactory.java:190-215 | one object's fields are replaced by what the field loop computes, leaving the map, the other objects and the object's setter calls as they were, as `AutowireObject` says |
| Factory.BeanFactory.AutowireNext | src/main/java/com/athena/factory/BeanFactory.java:189-215 | one turn of the outer loop extends the run of `AutowirePass` by the next object of the order, skipping it when it is not bound |
| Factory.BeanFactory.PopulateAnnotationPropertyForBean | src/main/java/com/athena/factory/BeanFactory.java:188-216 | visiting the listed objects in order, skipping unbound ones, leaves the container and throws as `AutowirePass` says |
| Factory.BeanFactory.PopulateXmlPropertyForBean | src/main/java/com/athena/factory/BeanFactory.java:225-261 | the `<bean>` loop changes the container as `XmlWirePass` says |
| Factory.BeanFactory.WireProperties | src/main/java/com/athena/factory/BeanFactory.java:236-259 | the `forEach` over properties changes the container as `WireProperties` says |
| Factory.BeanFactory.WireProperty | src/main/java/com/athena/factory/BeanFactory.java:237-258 | one property changes the container as `WireProperty` says |
| Factory.BeanFactory.InvokeMatchingSetters | src/main/java/com/athena/factory/BeanFactory.java:242-258 | the loop over `getMethods()` changes the container as `InvokeSetters` says |
| Factory.BeanFactory.GetBean | src/main/java/com/athena/factory/BeanFactory.java:263-272 | the result is what `Exposing` decides, and a proxy is newly allocated |
| Factory.BeanFactory.DealWithProxyBean | src/main/java/com/athena/factory/BeanFactory.java:281-318 | the result is what `ProxyDecision` decides, and a proxy is newly allocated |
| Factory.GetBeanTwice | src/main/java/com/athena/factory/BeanFactory.java:263-272 | two calls for a wrapped object give two different proxies; anything else comes back the same both times |
| Proxies.Reflected | src/main/java/com/athena/factory/ProxyFactory.java:59 | `Method.invoke` returns the method's value and wraps what it throws in `InvocationTargetException` |
| Proxies.Catch | src/main/java/com/athena/factory/ProxyFactory.java:63-68 | an exception is followed by rollback and rethrown, or replaced by rollback's own; an `Error` passes uncaught with no rollback |
| Proxies.Intercepted | src/main/java/com/athena/factory/ProxyFactory.java:52-74 | flag off: only the target is invoked; flag on: begin comes first, and a missing manager throws `NullPointerException` with no call; a returned value is the target's own, after it was invoked and with no rollback |
| Proxies.PlainCallForwards | src/main/java/com/athena/factory/ProxyFactory.java:70-72 | flag off: only the target is invoked, its value returned, its exception wrapped |
| Proxies.TransactionalSuccess | src/main/java/com/athena/factory/ProxyFactory.java:56-62 | flag on: the call returns exactly when the manager is injected, begin and commit succeed and the target returns; then the trace is begin, invoke, commit |
| Proxies.TransactionalFailure | src/main/java/com/athena/factory/ProxyFactory.java:58-68 | flag on, target throws: begin, invoke, rollback, no commit; the rethrown exception is the wrapped one unless rollback throws |
| Proxies.BeginOrCommitFailure | src/main/java/com/athena/factory/ProxyFactory.java:56-68 | a begin or commit exception is also rolled back and rethrown, unless rollback throws |
| Proxies.RollbackFailureMasks | src/main/java/com/athena/factory/ProxyFactory.java:66-68 | when rollback throws, its exception replaces the original |
| Proxies.TraceShape | src/main/java/com/athena/factory/ProxyFactory.java:52-74 | every trace has at most four calls and starts with begin when the flag is on; rollback is last and ends in an exception; commit and rollback both occur only when commit threw; the target is invoked at most once |
| Proxies.FlagAppliesToEveryMethod | src/main/java/com/athena/factory/ProxyFactory.java:27-43 | whether a call is bracketed depends on the proxy's flag and the manager, never on the method called |
| Proxies.ProxyFactory.RollbackAndRethrow | src/main/java/com/athena/factory/ProxyFactory.java:63-68 | the catch block appends exactly `Catch`'s calls to the trace and ends as it does |
| Proxies.ProxyFactory.DealWithMethodProxy | src/main/java/com/athena/factory/ProxyFactory.java:52-74 | appends exactly the interception's calls to the shared trace and ends as `Intercepted` says |
| Proxies.ProxyFactory.GetJdkProxy | src/main/java/com/athena/factory/ProxyFactory.java:27-34 | a new JDK proxy capturing the flag and the target |
| Proxies.ProxyFactory.GetCglibProxy | src/main/java/com/athena/factory/ProxyFactory.java:36-43 | a new cglib proxy capturing the flag and the target |
| Proxies.Proxy.Call | src/main/java/com/athena/factory/ProxyFactory.java:28-41 | any method called on either kind of proxy goes through the interceptor with the captured flag and target |
| Transfers.Wrap32 | src/main/java/com/athena/service/impl/TransferServiceImpl.java:26-27 | Java `int` arithmetic: congruent to the exact value modulo 2^32, and equal to it when it fits |
| Transfers.Transferred | src/main/java/com/athena/service/impl/TransferServiceImpl.java:21-32 | one to four store calls, the first the query of `from`; the cards stay the same; it completes exactly when no store call throws and both cards exist, and then makes all four calls |
| Transfers.FakeAccountDao.QueryAccountByCardNo | src/main/java/com/athena/dao/AccountDao.java:8 | records the query; throws the configured exception, or returns a new `Account` with the stored balance, or null for an unknown card |
| Transfers.FakeAccountDao.UpdateAccountByCardNo | src/main/java/com/athena/dao/AccountDao.java:10 | records the update; throws the configured exception, or stores the balance of a known card (1 row) or changes nothing (0 rows) |
| Transfers.TransferServiceImpl.Transfer | src/main/java/com/athena/service/impl/TransferServiceImpl.java:21-32 | makes exactly the calls `Transferred` lists, leaves its balances and throws its exception; a null `accountDao` throws `NullPointerException` |
| Transfers.CallOrder | src/main/java/com/athena/service/impl/TransferServiceImpl.java:23-31 | `from` is queried before `to` and `to` written before `from`; a completed transfer makes exactly two queries and two updates; it completes exactly when no call throws and both cards exist; a failure before the first update changes no balance |
| Transfers.FaultEndsTransfer | src/main/java/com/athena/service/impl/TransferServiceImpl.java:21-32 | a store exception at call k ends the transfer there: k+1 calls, that exception thrown, and no balance changed unless the update of `to` went through |
| Transfers.MissingCardThrows | src/main/java/com/athena/service/impl/TransferServiceImpl.java:23-26 | an unknown card throws `NullPointerException` after the two queries, before any update, with no balance changed |
| Transfers.DebitAndCredit | src/main/java/com/athena/service/impl/TransferServiceImpl.java:26-31 | between two cards, `from` loses and `to` gains `money` in `int` arithmetic, and no other card changes |
| Transfers.ExactWithoutOverflow | src/main/java/com/athena/service/impl/TransferServiceImpl.java:26-27 | without overflow the debit and the credit are exact and the sum of the two balances is unchanged |
| Transfers.SumConserved | src/main/java/com/athena/service/impl/TransferServiceImpl.java:26-31 | between two cards, the `int` sum of the two balances is the same before and after, overflow or not |
| Transfers.SelfTransferDebits | src/main/java/com/athena/service/impl/TransferServiceImpl.java:23-31 | a transfer from a card to itself leaves it debited by `money`, since the second update overwrites the first |
| Transfers.SecondUpdateFailure | src/main/java/com/athena/service/impl/TransferServiceImpl.java:29-31 | when the second update throws, the exception propagates and the credit of `to` stays applied |
| Transfers.Overdraws | src/main/java/com/athena/service/impl/TransferServiceImpl.java:21-27 | neither `money` nor the balance is checked, so `from` can go negative |

## Left out

- The configuration file is not parsed: dom4j, `selectNodes` and `attributeValue` are replaced by an `XmlConfig` value. A `<bean>` or `<property>` missing an attribute, and the resulting null keys and values, are not modelled.
- The classpath lookup of the scan root and the recursive directory walk are not modelled. The files they find are an input list in walk order. The `NullPointerException` when the scan root does not exist is left out with them.
- Reflection is not modelled. `Class.forName`, `newInstance`, `getAnnotations`, `getDeclaredFields`, `getMethods` and `getInterfaces` are replaced by the `Classpath` map of type descriptors.
- `Method.invoke` in setter wiring is recorded as a `SetterCall`. The setter's body is not visible. Setters that take a different parameter type, and the `IllegalArgumentException` or swallowed `InvocationTargetException` they would cause, are not modelled.
- Runtime proxy generation (`Proxy.newProxyInstance`, `Enhancer.create`) is not modelled; only the routing of each call into `dealWithMethodProxy` is. The `UndeclaredThrowableException` a JDK proxy raises for an undeclared checked exception is left out.
- The JDBC `TransactionManager` and the `AccountDao` implementation are not part of this model. Each is a recording fake that throws a configured exception.
- `Account.java` is not part of this model. Its balance is taken to be a Java `int`, with `getMoney` and `setMoney` as plain accessors.
- The annotation declarations are kept only as the `Annotation` datatype and the `autowired` field of `FieldDesc`. That is `value()`, defaulting to `""`.
- `printStackTrace`, `main` and the class-loading trigger of the static initializer are not modelled.
- The composition of the interceptor with the concrete `transfer` is not modelled. A proxied call's target behaviour is an input of the fake `Method.invoke`.
- BeanNames.ToLower: only ASCII letters change case. Java's full Unicode case mapping is not modelled.
- A field's type simple name is assumed non-empty and dot-free. Anonymous and array types are not modelled.
- Factory.BeanFactory.GetBean: the `ProxyFactory` object used for the proxies is a parameter. It stands for the object bound to "proxyFactory", whose class the model checks but whose identity it does not tie to the heap. A subclass of `ProxyFactory` bound there is treated as a failing cast.
- The iteration order of `singletonBeanMap.values()` is not modelled. `HashMap` fixes it by hashing; here it is an input list of references, and the lemmas hold for every order that lists each bound object once.
- `Field.set`'s type check is not computed from a class hierarchy. Each field's declared type is given as primitive or as the set of class names it accepts; only the resulting `IllegalArgumentException` is modelled. `IllegalAccessException` cannot arise, since `setAccessible(true)` comes first.
- Registry.Store.Valid: only bound names are required to refer to created objects. Fields and setter arguments are not constrained.
- Transfers.TransferServiceImpl.Transfer: the store is assumed to return a distinct `Account` object per query, as a row-mapping DAO does. A store handing out one shared object per card would make a self-transfer net to zero.

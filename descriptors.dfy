/**
 * What reflection and the XML parser hand to the container, as plain data:
 * type descriptors found on the classpath and the parsed `<bean>` entries.
 */
module Descriptors {
  import opened Values

  /** The annotations the container looks at; any other one is `OtherAnnotation`. */
  datatype Annotation =
    | MyService(value: string)
    | MyRepository(value: string)
    | MyComponent(value: string)
    | MyTransactional
    | OtherAnnotation(name: string)

  /** `Class.getSimpleName()` of a field's declared type: never empty, never dotted. */
  type SimpleTypeName = s: string | s != [] && '.' !in s witness "Object"

  /**
   * The declared type of a field as `Field.set` checks it: a primitive type,
   * which takes neither null nor any object the container creates, or a
   * reference type, which takes null and the instances of the classes in
   * `admits` (by fully qualified name: the class itself, its subclasses and
   * implementations).
   */
  datatype FieldType = Primitive | Reference(admits: set<string>)

  /** A declared field; `autowired` is `Some(value())` when it carries `@MyAutowired`. */
  datatype FieldDesc = FieldDesc(name: string, typeName: SimpleTypeName, kind: FieldType, autowired: Option<string>)

  /**
   * `field.set(obj, v)` succeeds: `v` is null (`None`) or an object of class
   * `Some(cls)`. A mismatch throws `IllegalArgumentException`.
   */
  predicate SetAccepts(t: FieldType, v: Option<string>) {
    match t
    case Primitive => false
    case Reference(admits) => v.None? || v.value in admits
  }

  /** A declared method with its annotations. */
  datatype MethodDesc = MethodDesc(name: string, annotations: seq<Annotation>)

  /**
   * A class whose `newInstance()` succeeds is `ClassType(true)`; an abstract
   * class, or one without an accessible no-argument constructor, is
   * `ClassType(false)`.
   */
  datatype TypeKind = ClassType(constructible: bool) | InterfaceType | AnnotationType

  /**
   * A loaded class: its annotations in `getAnnotations()` order, its declared
   * fields and methods, the names of its public methods (`getMethods()`,
   * inherited ones and overloads included) and whether it implements an
   * interface.
   */
  datatype TypeDesc = TypeDesc(
    kind: TypeKind,
    annotations: seq<Annotation>,
    fields: seq<FieldDesc>,
    declaredMethods: seq<MethodDesc>,
    publicMethods: seq<string>,
    hasInterfaces: bool)

  /** What `Class.forName` can load, by fully qualified name. */
  type Classpath = map<string, TypeDesc>

  /** `<property name=".." ref=".."/>` */
  datatype PropertyDef = PropertyDef(name: string, ref: string)

  /** `<bean id=".." class="..">` with its properties in document order. */
  datatype BeanDef = BeanDef(id: string, cls: string, properties: seq<PropertyDef>)

  /**
   * The parsed configuration file: the `base-package` of the first
   * `<component-scan>` (`None` when there is none) and the `<bean>` entries.
   */
  datatype XmlConfig = XmlConfig(componentScan: Option<string>, beans: seq<BeanDef>)

  /** A bean is created by `newInstance()` only for a constructible class. */
  predicate Instantiable(ty: TypeDesc) {
    ty.kind == ClassType(true)
  }

  /** `value()` of a component-marking annotation; `None` for any other annotation. */
  function ComponentValue(a: Annotation): (r: Option<string>)
    ensures r.Some? <==> a.MyService? || a.MyRepository? || a.MyComponent?
    ensures r.Some? ==> r.value == a.value
  {
    match a
    case MyService(v) => Some(v)
    case MyRepository(v) => Some(v)
    case MyComponent(v) => Some(v)
    case _ => None
  }

  /** `@MyTransactional` on the class itself. */
  predicate ClassTransactional(ty: TypeDesc) {
    MyTransactional in ty.annotations
  }

  /** `@MyTransactional` on at least one declared method. */
  predicate MethodTransactional(ty: TypeDesc) {
    exists m :: m in ty.declaredMethods && MyTransactional in m.annotations
  }
}

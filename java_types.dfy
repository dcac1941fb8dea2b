/**
 * The Java reflection vocabulary the scanner works on: runtime classes, the five forms of
 * java.lang.reflect.Type, and an explicit class table standing in for reflection and
 * JavaBeans introspection. Also the failure-compatible wrappers for the exceptions the
 * scanner can end in.
 */
module JavaTypes {

  datatype Option<+T> = None | Some(value: T)

  type ClassName = string

  /** A runtime class: a named class or interface, or the array class of a component class. */
  datatype ClassRef = Named(name: ClassName) | ArrayOf(component: ClassRef)

  /** The declaration site of a type variable (TypeVariable.getGenericDeclaration). */
  datatype GenericDeclaration = ClassDecl(cls: ClassName) | MethodDecl(methodName: string)

  /**
   * A java.lang.reflect.Type. The raw type of a parameterized type is always a class or
   * interface, never an array class, so it is kept as a name.
   */
  datatype JType =
    | Class(cls: ClassRef)
    | Param(raw: ClassName, owner: Option<JType>, args: seq<JType>)
    | TypeVar(name: string, decl: GenericDeclaration)
    | Wildcard(lower: seq<JType>, upper: seq<JType>)
    | GenericArray(comp: JType)

  /** A declared field and its generic type (Field.getGenericType). */
  datatype Field = Field(name: string, genericType: JType)

  /** A JavaBeans property: its name, its property class, and whether it has a write method. */
  datatype Property = Property(name: string, propertyType: ClassRef, hasSetter: bool)

  /**
   * What reflection reports about one class. `properties` is None when introspection of the
   * class fails. `depth` is the class's position in its (acyclic) inheritance chain; it only
   * serves as the measure of walks up that chain.
   */
  datatype ClassInfo = ClassInfo(
    genericSuperclass: Option<JType>,
    typeParameters: seq<string>,
    isPrivate: bool,
    isAbstract: bool,
    isInterface: bool,
    declaredFields: seq<Field>,
    properties: Option<seq<Property>>,
    depth: nat)

  /**
   * A method as reflection reports it: its declaring class, name, generic parameter types, the
   * names Parameter.getName gives its parameters, and its generic return type.
   */
  datatype MethodRef = MethodRef(
    declaringClass: ClassName,
    name: string,
    genericParameterTypes: seq<JType>,
    parameterNames: seq<string>,
    genericReturnType: JType)

  /** The class table: the classes reflection can see, and Class.isAssignableFrom. */
  datatype ClassTable = ClassTable(
    classes: map<ClassName, ClassInfo>,
    assignableFrom: (ClassRef, ClassRef) -> bool)

  const OBJECT: ClassRef := Named("java.lang.Object")
  const VOID: ClassRef := Named("void")
  const CLASS: ClassRef := Named("java.lang.Class")
  const COLLECTION: ClassRef := Named("java.util.Collection")
  const MAP: ClassRef := Named("java.util.Map")

  /** A class the table does not list: no superclass, no type parameters, no fields, no properties. */
  const UNLISTED: ClassInfo := ClassInfo(None, [], false, false, false, [], Some([]), 0)

  /**
   * The reflective view of a class. An array class extends Object, is abstract and final,
   * declares no fields, and is private exactly when its component class is.
   */
  function Info(ct: ClassTable, c: ClassRef): ClassInfo
  {
    match c
    case Named(n) => if n in ct.classes then ct.classes[n] else UNLISTED
    case ArrayOf(e) =>
      ClassInfo(Some(Class(OBJECT)), [], Info(ct, e).isPrivate, true, false, [],
                Some([Property("class", CLASS, false)]), 1)
  }

  /** The class a Class or ParameterizedType expression names (its raw class). */
  function RawClassOf(t: JType): ClassRef
    requires t.Class? || t.Param?
  {
    if t.Class? then t.cls else Named(t.raw)
  }

  /** The superclass of `c` is a class expression whose class lies nearer to Object. */
  ghost predicate SuperclassOk(ct: ClassTable, c: ClassRef)
  {
    match Info(ct, c).genericSuperclass
    case None => true
    case Some(g) =>
      (g.Class? || g.Param?) &&
      (RawClassOf(g) != OBJECT ==> Info(ct, RawClassOf(g)).depth < Info(ct, c).depth)
  }

  /** Every class's superclass chain is acyclic. */
  ghost predicate WellFormed(ct: ClassTable)
  {
    forall c :: SuperclassOk(ct, c)
  }

  /** The class `Class<?>.getComponentType` strips down to: the innermost component of an array class. */
  function Innermost(c: ClassRef): (r: ClassRef)
    ensures r.Named?
  {
    match c
    case Named(_) => c
    case ArrayOf(e) => Innermost(e)
  }

  /** The failures the modelled code can end in: Java exceptions, and the one Java error. */
  datatype Error =
    | StackOverflow                  // nesting deeper than the fuel allows (StackOverflowError)
    | NullPointer                    // a null reference was dereferenced (NullPointerException)
    | IndexOutOfBounds               // an array was indexed outside its bounds
    | ClassCast                      // a reflective cast failed (ClassCastException)
    | Introspection(cls: ClassRef)   // Introspector.getBeanInfo failed for this class
    | JsonFailure                    // Gson could not decode a document (JsonSyntaxException)
    | IllegalState                   // a JSON element was read as an object it is not
    | IllegalAccess                  // a reflective call was refused access (IllegalAccessException)
    | IllegalArgument                // a reflective call got arguments it cannot take
    | TargetException(thrown: string) // the reflectively invoked method threw
    | ScannerException(cause: Error) // a SwaggerScannerException carrying its cause

  datatype Result<+T> = Ok(value: T) | Err(error: Error) {
    predicate IsFailure() { Err? }

    function PropagateFailure<U>(): Result<U>
      requires Err?
    {
      Err(error)
    }

    function Extract(): T
      requires Ok?
    {
      value
    }
  }

  /** The outcome of a void Java method: it returns normally or throws. */
  datatype Outcome = Pass | Fail(error: Error)
}

/**
 * The read-only declaration tree the collector scans: an immutable stand-in for the
 * javadoc ClassDoc / MethodDoc / Parameter / Type / AnnotationDesc objects.
 */
module Declarations {
  import opened Nullable

  /**
   * One element-value pair of an annotation. `text` is what the value's toString()
   * gives; `elements` holds each element's toString() when the value is an array.
   */
  datatype ElementValue = ElementValue(name: string, text: string, elements: Option<seq<string>>)

  /** An annotation: the simple name of its type and its element-value pairs in order. */
  datatype Annotation = Annotation(typeName: string, elementValues: seq<ElementValue>)

  /** A method of a body or response type, as seen in that type's class documentation. */
  datatype MemberDoc = MemberDoc(name: string, returnTypeName: string, rawComment: Option<string>)

  /**
   * A type: its name, its array dimension text, whether it is primitive, and the
   * methods of its class documentation (None when there is no class documentation).
   */
  datatype TypeDesc = TypeDesc(
    typeName: string,
    dimension: Option<string>,
    isPrimitive: bool,
    classMethods: Option<seq<MemberDoc>>)

  /** A method parameter. */
  datatype ParamDecl = ParamDecl(name: string, paramType: TypeDesc, annotations: seq<Annotation>)

  /** A method of a controller class; `returnType` is None when the type is missing. */
  datatype MethodDecl = MethodDecl(
    name: string,
    rawComment: Option<string>,
    annotations: seq<Annotation>,
    parameters: seq<ParamDecl>,
    returnType: Option<TypeDesc>)

  /** A controller class: simple name, qualified type name, comment, annotations, methods. */
  datatype ClassDecl = ClassDecl(
    name: string,
    qualifiedTypeName: string,
    rawComment: Option<string>,
    annotations: seq<Annotation>,
    methods: seq<MethodDecl>)
}

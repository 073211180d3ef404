# spring-request-doclet, modelled in Dafny

spring-request-doclet is a javadoc doclet. It reads the Spring MVC request-mapping
annotations of controller classes and writes HTML pages that list every end-point.
This project models its two computing parts and proves properties of them:

- **The end-point collector** (`EndPointCollector`). It walks a class and its methods
  and builds a map from composed path to an ordered list of end-points. Along the way it:
  - joins each class path with each method path;
  - gives overloaded methods per-class unique names (`sayHello`, `sayHello2`, ...);
  - classifies each parameter as query, path or header;
  - derives body fields from accessor names;
  - takes the first sentence of doc comments;
  - extracts the `@param`/`@return` text with a hand-written scanner that behaves like
    the two regular expressions under `Matcher.find`.
- **The HTML writer's own logic** (`HtmlPathMapWriter`): HTML escaping, the joined output
  of `printArray`, the memoised allocation of one file path per class, and the grouping
  of end-points by class, with the sorts of paths and classes.

The record classes `ParamInfo`, `ClassInfo`, `MethodInfo` and `ContentsInfo` are
datatypes that keep their behaviour (factories, `equals`, `hashCode`, `compareTo`).

Java `null` is `Option`, and a thrown `NullPointerException` is a `Failure`/`Fail`
value. The javadoc API (`ClassDoc`, `MethodDoc`, `AnnotationDesc`, ...) becomes an
immutable declaration tree (module `Declarations`), supplied as input.

`Character.isLetter`, `Character.isDigit`, `Character.toLowerCase` and
`File.separatorChar` are parameters, so no character set is assumed.

Imperative parts stay imperative:
- `EndPointCollector` is a class whose `pathInfoMap` field its methods update.
- The verb array is rewritten in place.
- `HtmlPathMapWriter` is a class with the `classNameMap` and `classFileNameSet` fields.
- Every loop of the source is a `while`/`for` loop, proved against a function that
  specifies it (`CollectorSpec`, `EndPoints`, `Grouping`, ...).

Where the tool's documented behaviour and its code differ, the model follows the code:
- `"/auth/"` joined with `"/test"` gives `"/auth//test"`: a slash is inserted, never
  removed.
- The first sentence of an empty comment is the empty string, not null.
- A second slug collision does not make the suffix count up (see Findings).

Modules, in dependency order:
`Nullable`, `JavaStrings`, `Declarations`, `Params`, `Classes`, `Contents`,
`Methods`, `PathText`, `Annotations`, `DocComments`, `Fields`, `UniqueNames`,
`EndPoints`, `CollectorSpec`, `Collector`, `HtmlText`, `ClassFileNames`, `Grouping`.

## Model

| member | source | states |
|---|---|---|
| JavaStrings.CompareToAntisymmetric | src/main/java/com/j256/springrequestdoclet/collector/ClassInfo.java:45-47 | String.compareTo negates when its arguments are swapped |
| JavaStrings.CompareToZero | src/main/java/com/j256/springrequestdoclet/collector/ClassInfo.java:45-47 | compareTo is 0 exactly for equal strings |
| JavaStrings.CompareToNegative | src/main/java/com/j256/springrequestdoclet/collector/MethodInfo.java:91-93 | compareTo is negative exactly when the first string is lexicographically smaller (proper prefix, or smaller at the first difference) |
| JavaStrings.CompareToTransitive | src/main/java/com/j256/springrequestdoclet/writer/HtmlPathMapWriter.java:155-156 | the order compareTo induces is transitive, which the sorts rely on |
| JavaStrings.HashCode | src/main/java/com/j256/springrequestdoclet/collector/ClassInfo.java:49-52 | String.hashCode wraps to a signed 32-bit value; the empty string hashes to 0 |
| JavaStrings.Itos | src/main/java/com/j256/springrequestdoclet/collector/EndPointCollector.java:120 | the decimal text of the suffix counter is non-empty and all digits |
| JavaStrings.ItosInjective | src/main/java/com/j256/springrequestdoclet/collector/EndPointCollector.java:118-121 | different counters give different suffixes |
| JavaStrings.ParseBoolean | src/main/java/com/j256/springrequestdoclet/collector/EndPointCollector.java:192-195 | true iff the text is "true" in any mix of ASCII letter case; null and "false" give false |
| Params.ParamRequestKind.Description | src/main/java/com/j256/springrequestdoclet/collector/ParamInfo.java:87-103 | QUERY, HEADER and PATH describe as "Query", "Header" and "Path", each iff |
| Params.DescriptionInjective | src/main/java/com/j256/springrequestdoclet/collector/ParamInfo.java:87-103 | no two kinds share a description |
| Params.FromRequestParam | src/main/java/com/j256/springrequestdoclet/collector/ParamInfo.java:18-22 | kind QUERY; every other field is its argument |
| Params.FromPathVariable | src/main/java/com/j256/springrequestdoclet/collector/ParamInfo.java:24-28 | kind PATH; every other field is its argument |
| Params.FromRequestHeader | src/main/java/com/j256/springrequestdoclet/collector/ParamInfo.java:30-34 | kind HEADER; every other field is its argument |
| Params.FactoryOfGetters | src/main/java/com/j256/springrequestdoclet/collector/ParamInfo.java:36-82 | every record is its kind's factory applied to its own getters |
| Classes.ClassInfo.Equals | src/main/java/com/j256/springrequestdoclet/collector/ClassInfo.java:54-65 | equal iff the other is non-null with the same type name (null equals only null) |
| Classes.ClassInfo.HashCode | src/main/java/com/j256/springrequestdoclet/collector/ClassInfo.java:49-52 | a signed 32-bit hash; 0 for a null type name |
| Classes.ClassInfo.CompareTo | src/main/java/com/j256/springrequestdoclet/collector/ClassInfo.java:44-47 | 0 iff same class name; negative iff the class name is lexicographically smaller |
| Classes.EqualsIsEquivalence | src/main/java/com/j256/springrequestdoclet/collector/ClassInfo.java:54-65 | equals is reflexive, symmetric, transitive and ignores all but the type name |
| Classes.EqualsImpliesSameHash | src/main/java/com/j256/springrequestdoclet/collector/ClassInfo.java:49-65 | equal records hash equally |
| Classes.CompareToIsOrder | src/main/java/com/j256/springrequestdoclet/collector/ClassInfo.java:44-47 | compareTo is antisymmetric and transitive in sign |
| Classes.CompareToInconsistentWithEquals | src/main/java/com/j256/springrequestdoclet/collector/ClassInfo.java:44-65 | two records with one class name and different type names compare 0 but are unequal |
| Methods.MethodInfo.CompareTo | src/main/java/com/j256/springrequestdoclet/collector/MethodInfo.java:90-93 | 0 iff same Java method name; negative iff that name is lexicographically smaller |
| Methods.CompareToAntisymmetric | src/main/java/com/j256/springrequestdoclet/collector/MethodInfo.java:90-93 | antisymmetric; overloads with one Java name compare 0 |
| Contents.FromRequestBody | src/main/java/com/j256/springrequestdoclet/collector/ContentsInfo.java:17-20 | keeps the parameter name, type name, doc and field list |
| Contents.FromResponse | src/main/java/com/j256/springrequestdoclet/collector/ContentsInfo.java:22-24 | no parameter name; keeps type name, doc and field list |
| Contents.FactoryOfGetters | src/main/java/com/j256/springrequestdoclet/collector/ContentsInfo.java:26-47 | the parameter name tells the factories apart and each rebuilds its records |
| PathText.StripQuotes | src/main/java/com/j256/springrequestdoclet/collector/EndPointCollector.java:400-406 | one pair of surrounding quotes is removed when the text has length at least 2 and quotes at both ends; otherwise it is unchanged |
| PathText.StripQuotesOfQuoted | src/main/java/com/j256/springrequestdoclet/collector/EndPointCollector.java:400-406 | quoting then stripping gives the text back |
| PathText.PathNoQuotes | src/main/java/com/j256/springrequestdoclet/collector/EndPointCollector.java:400-406 | null stays null; otherwise StripQuotes |
| PathText.CalculatePath | src/main/java/com/j256/springrequestdoclet/collector/EndPointCollector.java:149-165 | absent/empty class path gives the method path; empty method path gives the class path; else the concatenation, with '/' inserted iff neither side has one at the boundary; quotes stripped first |
| PathText.CalculatePathBoundarySlash | src/main/java/com/j256/springrequestdoclet/collector/EndPointCollector.java:157-163 | two non-empty sides always meet at a '/' and the class path is a prefix |
| PathText.CalculatePathEndsWithMethodPath | src/main/java/com/j256/springrequestdoclet/collector/EndPointCollector.java:149-165 | the unquoted method path is a suffix of the result |
| PathText.CalculatePathExamples | src/main/java/com/j256/springrequestdoclet/collector/EndPointCollector.java:149-165 | "/auth"+"test" and "/auth"+"/test" give "/auth/test"; a missing class path leaves the method path as it is |
| PathText.CalculatePathDoubledExamples | src/main/java/com/j256/springrequestdoclet/collector/EndPointCollector.java:149-165 | a slash on both sides is kept twice: "/a/"+"/b" gives "/a//b" |
| PathText.CalculatePathQuotedExample | src/main/java/com/j256/springrequestdoclet/collector/EndPointCollector.java:149-165 | quotes around the class path and around the method path are stripped before composing |
| PathText.WithoutRequestMethodPrefix | src/main/java/com/j256/springrequestdoclet/collector/EndPointCollector.java:77-79 | the RequestMethod package prefix is removed when present, else the text is unchanged |
| PathText.WithoutRequestMethodPrefixOfPrefixed | src/main/java/com/j256/springrequestdoclet/collector/EndPointCollector.java:77-79 | stripping the prefix from a prefixed verb gives the verb |
| Annotations.AnnotationNamed | src/main/java/com/j256/springrequestdoclet/collector/EndPointCollector.java:338-345 | an annotation of that name from the list, none iff no annotation has the name |
| Annotations.AnnotationNamedIsFirst | src/main/java/com/j256/springrequestdoclet/collector/EndPointCollector.java:338-345 | it is the first annotation with the name |
| Annotations.FindAnnotation | src/main/java/com/j256/springrequestdoclet/collector/EndPointCollector.java:338-345 | the loop returns AnnotationNamed |
| Annotations.FieldValuesNamed | src/main/java/com/j256/springrequestdoclet/collector/EndPointCollector.java:352-368 | the unquoted elements of an array-valued pair of that name; none iff no such pair |
| Annotations.FindAnnotationFieldValues | src/main/java/com/j256/springrequestdoclet/collector/EndPointCollector.java:352-368 | a fresh array holding FieldValuesNamed, or null when it is none |
| Annotations.FieldValueNamed | src/main/java/com/j256/springrequestdoclet/collector/EndPointCollector.java:375-385 | the unquoted text of a pair of that name; none iff no pair has the name |
| Annotations.FindAnnotationFieldValue | src/main/java/com/j256/springrequestdoclet/collector/EndPointCollector.java:375-385 | the loop returns FieldValueNamed |
| DocComments.FirstSentence | src/main/java/com/j256/springrequestdoclet/collector/EndPointCollector.java:391-397 | a prefix with no terminator (. ! ? @) before its last character; shorter than the text only when it ends in a terminator |
| DocComments.FirstSentenceIdempotent | src/main/java/com/j256/springrequestdoclet/collector/EndPointCollector.java:387-398 | taking the first sentence twice equals taking it once |
| DocComments.FirstSentenceExamples | src/main/java/com/j256/springrequestdoclet/collector/EndPointCollector.java:387-398 | "" gives "", "Hi. There" gives "Hi.", text without a terminator is kept whole |
| DocComments.FirstSentenceOf | src/main/java/com/j256/springrequestdoclet/collector/EndPointCollector.java:387-390 | null iff the comment is null; otherwise FirstSentence |
| DocComments.FirstSentenceAt | src/main/java/com/j256/springrequestdoclet/collector/EndPointCollector.java:391-397 | after a terminator-free prefix of length i, a terminator at i ends the sentence there; the end of text gives the whole text |
| DocComments.JavaDocFirstSentence | src/main/java/com/j256/springrequestdoclet/collector/EndPointCollector.java:387-398 | the scan loop returns FirstSentenceOf |
| DocComments.MatchAt | src/main/java/com/j256/springrequestdoclet/collector/EndPointCollector.java:35 | a match at i starts with the tag word, captures a non-empty whitespace-free name for @param and a non-empty '@'-free text |
| DocComments.FindTag | src/main/java/com/j256/springrequestdoclet/collector/EndPointCollector.java:323-325 | find returns a match at or after the start position |
| DocComments.FindTagIsLeftmost | src/main/java/com/j256/springrequestdoclet/collector/EndPointCollector.java:323-325 | no match starts before the one find returns |
| DocComments.FindTagSkipsNoMatch | src/main/java/com/j256/springrequestdoclet/collector/EndPointCollector.java:323-325 | every position find passes over has no match, and find gives nothing only when no position from the start on matches |
| DocComments.ParamDocFrom | src/main/java/com/j256/springrequestdoclet/collector/EndPointCollector.java:322-332 | the text found is a non-empty '@'-free snippet |
| DocComments.ParamDocFromIsMatchText | src/main/java/com/j256/springrequestdoclet/collector/EndPointCollector.java:328-329 | the text found is the text of a @param match with that name |
| DocComments.ParamDocFromFinds | src/main/java/com/j256/springrequestdoclet/collector/EndPointCollector.java:324-331 | a @param match of the name is found when every earlier match has another name and ends before it |
| DocComments.ParamDoc | src/main/java/com/j256/springrequestdoclet/collector/EndPointCollector.java:316-320 | a null or empty comment gives null |
| DocComments.ParamDocFinds | src/main/java/com/j256/springrequestdoclet/collector/EndPointCollector.java:316-333 | a non-empty comment gives the text of the @param match of the name that the find chain reaches |
| DocComments.ExtractParamDocs | src/main/java/com/j256/springrequestdoclet/collector/EndPointCollector.java:316-333 | the find loop that restarts after each non-matching block returns ParamDoc |
| DocComments.ReturnTagText | src/main/java/com/j256/springrequestdoclet/collector/EndPointCollector.java:253-260 | the @return text exists only for a non-null comment and is a snippet |
| DocComments.ReturnTagTextCases | src/main/java/com/j256/springrequestdoclet/collector/EndPointCollector.java:255-259 | a non-null comment has @return text iff it has a @return match, and the text is the leftmost match's |
| DocComments.ScanParamExample | src/main/java/com/j256/springrequestdoclet/collector/EndPointCollector.java:35-36 | "@param id the id" captures the name "id" and the text "the id" |
| DocComments.ScanBacktrackExample | src/main/java/com/j256/springrequestdoclet/collector/EndPointCollector.java:35-36 | with two spaces before an "@" the engine gives one space back, which becomes the text |
| DocComments.ScanNoTextExample | src/main/java/com/j256/springrequestdoclet/collector/EndPointCollector.java:35-36 | with a single space before an "@" there is no match |
| DocComments.ScanReturnExample | src/main/java/com/j256/springrequestdoclet/collector/EndPointCollector.java:35-36 | "@return the user" captures the text "the user" |
| Fields.AccessorFieldName | src/main/java/com/j256/springrequestdoclet/collector/EndPointCollector.java:301-307 | a field name iff getX... (length > 3) or isX... (length > 2); the suffix with its first character lower-cased, get before is |
| Fields.AccessorFieldNameOfAccessor | src/main/java/com/j256/springrequestdoclet/collector/EndPointCollector.java:303-307 | getter and boolean-getter names give their field |
| Fields.AccessorFields | src/main/java/com/j256/springrequestdoclet/collector/EndPointCollector.java:299-313 | at most one field per method |
| Fields.AccessorFieldsAppend | src/main/java/com/j256/springrequestdoclet/collector/EndPointCollector.java:300-312 | field extraction distributes over concatenation (declaration order kept) |
| Fields.AccessorFieldsSingle | src/main/java/com/j256/springrequestdoclet/collector/EndPointCollector.java:300-312 | one method gives one field iff it is an accessor, named, typed and documented from it |
| Fields.FieldInfosOf | src/main/java/com/j256/springrequestdoclet/collector/EndPointCollector.java:278-297 | null for primitives, Boolean/Byte/Short/Integer/Long/Float/Double/String and types without class methods; otherwise exactly the accessor fields of the type's methods |
| Fields.ExtractFieldInfos | src/main/java/com/j256/springrequestdoclet/collector/EndPointCollector.java:278-314 | the loop returns FieldInfosOf |
| UniqueNames.SuffixedName | src/main/java/com/j256/springrequestdoclet/collector/EndPointCollector.java:119-121 | name + j for the first j >= i not taken; every skipped candidate is taken |
| UniqueNames.UniqueName | src/main/java/com/j256/springrequestdoclet/collector/EndPointCollector.java:118-121 | the result is not taken; it is the bare name iff that is free, else the first free name + j for j = 2, 3, ... |
| UniqueNames.UniqueNameExamples | src/main/java/com/j256/springrequestdoclet/collector/EndPointCollector.java:118-121 | the first "sayHello" keeps its name, the second becomes "sayHello2" |
| UniqueNames.UniqueNameThirdExample | src/main/java/com/j256/springrequestdoclet/collector/EndPointCollector.java:118-121 | a third "sayHello" skips the taken "sayHello2" and becomes "sayHello3" |
| UniqueNames.AddUniqueName | src/main/java/com/j256/springrequestdoclet/collector/EndPointCollector.java:118-121 | the suffix loop returns UniqueName and leaves the set grown by it |
| EndPoints.Appended | src/main/java/com/j256/springrequestdoclet/collector/EndPointCollector.java:167-175 | the keys gain the end-point's path |
| EndPoints.AppendedLookup | src/main/java/com/j256/springrequestdoclet/collector/EndPointCollector.java:167-175 | only the end-point's own list grows, by exactly that end-point at its end |
| EndPoints.AppendedWellFormed | src/main/java/com/j256/springrequestdoclet/collector/EndPointCollector.java:167-175 | lists stay non-empty and hold only end-points whose path is their key |
| EndPoints.AppendedAllWellFormed | src/main/java/com/j256/springrequestdoclet/collector/EndPointCollector.java:167-175 | a run of appends keeps the index well formed |
| EndPoints.AppendedAllLookup | src/main/java/com/j256/springrequestdoclet/collector/EndPointCollector.java:167-175 | after a run each list is its old contents followed by the new end-points with that path, in order |
| EndPoints.AppendedAllKeys | src/main/java/com/j256/springrequestdoclet/collector/EndPointCollector.java:167-175 | after a run the keys are the old keys and the new paths |
| EndPoints.AppendedAllConcat | src/main/java/com/j256/springrequestdoclet/collector/EndPointCollector.java:130-132 | two runs in a row equal one run over the concatenation |
| CollectorSpec.TypeNameOf | src/main/java/com/j256/springrequestdoclet/collector/EndPointCollector.java:266-273 | the type name followed by the dimension text when there is one |
| CollectorSpec.RequiredOf | src/main/java/com/j256/springrequestdoclet/collector/EndPointCollector.java:191-195 | required is true when no "required" value is given, and otherwise the parse of that value |
| CollectorSpec.RequiredFalse | src/main/java/com/j256/springrequestdoclet/collector/EndPointCollector.java:192-195 | an explicit required = false makes the parameter optional |
| CollectorSpec.ClassifyParam | src/main/java/com/j256/springrequestdoclet/collector/EndPointCollector.java:180-222 | a kept parameter has the Java parameter's name |
| CollectorSpec.ClassifyParamCases | src/main/java/com/j256/springrequestdoclet/collector/EndPointCollector.java:180-222 | fails iff only a header annotation is present; nothing iff none of the three; RequestParam wins and gives QUERY with that annotation's value, required flag and default; PathVariable gives PATH with its value, required, no default; type name and doc come from the parameter |
| CollectorSpec.ParamInfosOf | src/main/java/com/j256/springrequestdoclet/collector/EndPointCollector.java:93-99 | no more infos than parameters |
| CollectorSpec.ParamInfosOfCases | src/main/java/com/j256/springrequestdoclet/collector/EndPointCollector.java:93-99 | fails iff some parameter fails; every kept info is not a header and is the classification of some parameter |
| CollectorSpec.ParamInfosOfComplete | src/main/java/com/j256/springrequestdoclet/collector/EndPointCollector.java:93-99 | when no parameter fails, the loop keeps every record a parameter classifies to and only those, in parameter order (Kept) |
| CollectorSpec.RequestBodyFrom | src/main/java/com/j256/springrequestdoclet/collector/EndPointCollector.java:227-239 | contents iff the parameter has @RequestBody, with its name, type name, doc and fields |
| CollectorSpec.RequestBodyOf | src/main/java/com/j256/springrequestdoclet/collector/EndPointCollector.java:102-109 | none iff no parameter has @RequestBody; otherwise the contents of the first that has |
| CollectorSpec.ResponseOf | src/main/java/com/j256/springrequestdoclet/collector/EndPointCollector.java:244-264 | none iff no return type or void; otherwise no parameter name, the type's name and fields, and as doc the first sentence of the @return text (null iff there is no @return text) |
| CollectorSpec.Verbs | src/main/java/com/j256/springrequestdoclet/collector/EndPointCollector.java:75-81 | same length; a verb with the RequestMethod package prefix loses exactly that prefix, any other verb is unchanged |
| CollectorSpec.MethodInfoFor | src/main/java/com/j256/springrequestdoclet/collector/EndPointCollector.java:118-125 | a mapped method's unique name is UniqueName of the class's name set |
| CollectorSpec.MappedInfo | src/main/java/com/j256/springrequestdoclet/collector/EndPointCollector.java:123-125 | the record carries the unique name computed for it |
| CollectorSpec.MethodInfoForCases | src/main/java/com/j256/springrequestdoclet/collector/EndPointCollector.java:64-125 | skipped iff no @RequestMapping; fails iff mapped with a failing parameter; a mapped record has the method's name, doc, first sentence, body and response, an unused unique name, and as parameter list the kept classifications in parameter order, absent rather than empty |
| CollectorSpec.ClassPathEndPoints | src/main/java/com/j256/springrequestdoclet/collector/EndPointCollector.java:136-147 | one end-point under the unquoted class path when the method has no paths, else one per method path in order, at CalculatePath |
| CollectorSpec.EndPointsOver | src/main/java/com/j256/springrequestdoclet/collector/EndPointCollector.java:130-132 | the number of class paths times (method paths or 1) end-points, all of this class and method |
| CollectorSpec.EndPointsFor | src/main/java/com/j256/springrequestdoclet/collector/EndPointCollector.java:127-133 | every end-point belongs to the class and method |
| CollectorSpec.EndPointsForCount | src/main/java/com/j256/springrequestdoclet/collector/EndPointCollector.java:127-147 | (class paths or 1) times (method paths or 1) end-points; an empty array on either side gives none |
| CollectorSpec.MethodsProgress | src/main/java/com/j256/springrequestdoclet/collector/EndPointCollector.java:52-54 | no more records than methods |
| CollectorSpec.MethodsProgressUnique | src/main/java/com/j256/springrequestdoclet/collector/EndPointCollector.java:118-121 | within one class the unique names are pairwise distinct and in the set; every end-point is the class's and one of its records' (NamesDistinct) |
| CollectorSpec.AdvanceDistinct | src/main/java/com/j256/springrequestdoclet/collector/EndPointCollector.java:118-121 | a step that maps a method to a name not yet in the set keeps NamesDistinct |
| CollectorSpec.ProgressFailureSticks | src/main/java/com/j256/springrequestdoclet/collector/EndPointCollector.java:52-54 | after a failure the remaining methods change nothing |
| CollectorSpec.ClassInfoOf | src/main/java/com/j256/springrequestdoclet/collector/EndPointCollector.java:47-50 | the class record's name, type name, doc, first sentence and paths |
| CollectorSpec.ClassStep | src/main/java/com/j256/springrequestdoclet/collector/EndPointCollector.java:40-55 | a class without @RequestMapping adds nothing; every end-point added has the class's name and type name |
| CollectorSpec.OverloadedMethodsExample | sample/src/main/java/com/j256/auth/TestController.java:16-51 | two overloads named sayHello under "/auth/test" become sayHello and sayHello2, both filed under "/auth/test" |
| CollectorSpec.IntendedClassifyParam | src/main/java/com/j256/springrequestdoclet/collector/EndPointCollector.java:207-219 | the corrected classification never fails |
| CollectorSpec.IntendedClassifyParamAgrees | src/main/java/com/j256/springrequestdoclet/collector/EndPointCollector.java:207-219 | it agrees with ClassifyParam wherever that succeeds, and gives a header-only parameter kind HEADER with the header annotation's value, required flag and default |
| CollectorSpec.HeaderParamExample | src/main/java/com/j256/springrequestdoclet/collector/EndPointCollector.java:207-219 | a parameter with only @RequestHeader("Content-Type") fails as written and is a HEADER parameter named Content-Type when corrected |
| Collector.StripRequestMethodPrefixes | src/main/java/com/j256/springrequestdoclet/collector/EndPointCollector.java:75-81 | the array is rewritten in place to Verbs of its old contents |
| Collector.HandleParam | src/main/java/com/j256/springrequestdoclet/collector/EndPointCollector.java:180-222 | returns ClassifyParam |
| Collector.HandleRequestBodyParam | src/main/java/com/j256/springrequestdoclet/collector/EndPointCollector.java:227-239 | returns RequestBodyFrom |
| Collector.HandleResponseBody | src/main/java/com/j256/springrequestdoclet/collector/EndPointCollector.java:244-264 | returns ResponseOf |
| Collector.CollectParamInfos | src/main/java/com/j256/springrequestdoclet/collector/EndPointCollector.java:93-99 | the parameter loop returns ParamInfosOf |
| Collector.FindRequestBody | src/main/java/com/j256/springrequestdoclet/collector/EndPointCollector.java:102-109 | the loop with its break returns RequestBodyOf |
| Collector.MappingFields | src/main/java/com/j256/springrequestdoclet/collector/EndPointCollector.java:72-89 | the six array fields of the mapping, with verbs stripped in place |
| Collector.EndPointCollector.constructor | src/main/java/com/j256/springrequestdoclet/collector/EndPointCollector.java:38 | the index starts empty |
| Collector.EndPointCollector.GetPathInfoMap | src/main/java/com/j256/springrequestdoclet/collector/EndPointCollector.java:57-59 | the index is well formed |
| Collector.EndPointCollector.ProcessClass | src/main/java/com/j256/springrequestdoclet/collector/EndPointCollector.java:40-55 | the outcome is ClassStep's; the index becomes the old one with ClassStep's end-points appended in order |
| Collector.EndPointCollector.ProcessMethods | src/main/java/com/j256/springrequestdoclet/collector/EndPointCollector.java:51-54 | the methods loop with a fresh name set reaches MethodsProgress's outcome and end-points |
| Collector.EndPointCollector.HandleMethod | src/main/java/com/j256/springrequestdoclet/collector/EndPointCollector.java:64-134 | skipped methods change nothing, a failing one changes nothing and fails, a mapped one appends EndPointsFor its record and adds its unique name to the set |
| Collector.EndPointCollector.AddEndPoints | src/main/java/com/j256/springrequestdoclet/collector/EndPointCollector.java:127-133 | the class-path loop appends EndPointsFor |
| Collector.EndPointCollector.AddClassPathInfo | src/main/java/com/j256/springrequestdoclet/collector/EndPointCollector.java:136-147 | appends ClassPathEndPoints |
| Collector.EndPointCollector.AddPathInfo | src/main/java/com/j256/springrequestdoclet/collector/EndPointCollector.java:167-175 | the index becomes Appended: one end-point at the end of its path's list |
| HtmlText.EscapedChar | src/main/java/com/j256/springrequestdoclet/writer/HtmlPathMapWriter.java:392-401 | other characters are copied; no replacement holds an angle bracket |
| HtmlText.Escape | src/main/java/com/j256/springrequestdoclet/writer/HtmlPathMapWriter.java:390-403 | the escape holds no '<' or '>' |
| HtmlText.EscapeAppend | src/main/java/com/j256/springrequestdoclet/writer/HtmlPathMapWriter.java:391-402 | escaping distributes over concatenation |
| HtmlText.EscapeOfPlain | src/main/java/com/j256/springrequestdoclet/writer/HtmlPathMapWriter.java:381-389 | a string with none of & < > is its own escape |
| HtmlText.EscapeLength | src/main/java/com/j256/springrequestdoclet/writer/HtmlPathMapWriter.java:390-403 | the length grows by 4 per & and 3 per < or > |
| HtmlText.UnescapeEscape | src/main/java/com/j256/springrequestdoclet/writer/HtmlPathMapWriter.java:390-403 | decoding the three entities restores the original |
| HtmlText.HtmlEscapeOf | src/main/java/com/j256/springrequestdoclet/writer/HtmlPathMapWriter.java:377-389 | null iff null; strings without & < > (the empty one included) are returned unchanged; the result holds no angle bracket |
| HtmlText.HtmlEscape | src/main/java/com/j256/springrequestdoclet/writer/HtmlPathMapWriter.java:377-404 | the two loops return HtmlEscapeOf |
| HtmlText.PrintedArray | src/main/java/com/j256/springrequestdoclet/writer/HtmlPathMapWriter.java:358-361 | nothing for a null or empty array |
| HtmlText.JoinedHasNoAngles | src/main/java/com/j256/springrequestdoclet/writer/HtmlPathMapWriter.java:363-368 | the joined elements hold no angle bracket |
| HtmlText.PrintedArrayHasNoAngles | src/main/java/com/j256/springrequestdoclet/writer/HtmlPathMapWriter.java:358-369 | printArray's output holds no angle bracket |
| HtmlText.JoinedLength | src/main/java/com/j256/springrequestdoclet/writer/HtmlPathMapWriter.java:363-368 | plain elements give their total length plus 2 per separator |
| HtmlText.PrintArray | src/main/java/com/j256/springrequestdoclet/writer/HtmlPathMapWriter.java:358-369 | writes PrintedArray: the escaped prefix if any, then the escaped elements joined by ", " |
| HtmlText.WriteElements | src/main/java/com/j256/springrequestdoclet/writer/HtmlPathMapWriter.java:363-368 | the element loop writes Joined |
| ClassFileNames.Slug | src/main/java/com/j256/springrequestdoclet/writer/HtmlPathMapWriter.java:413-419 | same length; letters and digits kept, every other character '_' |
| ClassFileNames.RawPath | src/main/java/com/j256/springrequestdoclet/writer/HtmlPathMapWriter.java:411-420 | "classes", the separator, then the slug |
| ClassFileNames.SlugIdempotent | src/main/java/com/j256/springrequestdoclet/writer/HtmlPathMapWriter.java:413-419 | a slug is its own slug |
| ClassFileNames.CollisionLoopStuck | src/main/java/com/j256/springrequestdoclet/writer/HtmlPathMapWriter.java:422-425 | when the raw path and raw path + "2" are taken, every candidate the loop tries is taken |
| ClassFileNames.IntendedPath | src/main/java/com/j256/springrequestdoclet/writer/HtmlPathMapWriter.java:421-425 | the corrected allocation is never taken, and is the raw path iff that is free |
| ClassFileNames.IntendedPathAgrees | src/main/java/com/j256/springrequestdoclet/writer/HtmlPathMapWriter.java:421-425 | where the written loop ends, it agrees with the corrected allocation |
| ClassFileNames.HtmlPathMapWriter.constructor | src/main/java/com/j256/springrequestdoclet/writer/HtmlPathMapWriter.java:31-32 | the memo and the set start empty |
| ClassFileNames.HtmlPathMapWriter.JavaClassNameToPath | src/main/java/com/j256/springrequestdoclet/writer/HtmlPathMapWriter.java:406-428 | a memoised type name returns its path and changes nothing; otherwise the path was not in the set, is added to it, and is memoised; distinct type names keep distinct paths |
| Grouping.AddToGroup | src/main/java/com/j256/springrequestdoclet/writer/HtmlPathMapWriter.java:144-150 | the keys gain the class's type name |
| Grouping.GroupListItems | src/main/java/com/j256/springrequestdoclet/writer/HtmlPathMapWriter.java:143-151 | the inner loop adds to each class exactly its end-points' items and keeps existing groups' ClassInfo |
| Grouping.GroupEntriesItems | src/main/java/com/j256/springrequestdoclet/writer/HtmlPathMapWriter.java:141-152 | each class's list is exactly the items of its end-points in iteration order; a class has an entry iff it has an end-point |
| Grouping.GroupListKeyed | src/main/java/com/j256/springrequestdoclet/writer/HtmlPathMapWriter.java:143-151 | every group stays filed under its ClassInfo's type name |
| Grouping.GroupEntriesKeyed | src/main/java/com/j256/springrequestdoclet/writer/HtmlPathMapWriter.java:141-152 | equal ClassInfos share one group, filed under their type name |
| Grouping.ClassPathsCounted | src/main/java/com/j256/springrequestdoclet/writer/HtmlPathMapWriter.java:141-196 | the summary lists one path per end-point of the class (the path of its entry), as many as the class page's end-points |
| Grouping.GroupByClass | src/main/java/com/j256/springrequestdoclet/writer/HtmlPathMapWriter.java:185-196 | the nested loops build GroupEntries |
| Grouping.Insert | src/main/java/com/j256/springrequestdoclet/writer/HtmlPathMapWriter.java:156 | insertion adds exactly one element |
| Grouping.SortBy | src/main/java/com/j256/springrequestdoclet/writer/HtmlPathMapWriter.java:156 | the sort is a permutation |
| Grouping.InsertSorted | src/main/java/com/j256/springrequestdoclet/writer/HtmlPathMapWriter.java:156 | insertion keeps a list sorted |
| Grouping.SortBySorted | src/main/java/com/j256/springrequestdoclet/writer/HtmlPathMapWriter.java:156 | the sort is sorted and a permutation |
| Grouping.ClassSummaryOrder | src/main/java/com/j256/springrequestdoclet/writer/HtmlPathMapWriter.java:154-156 | the classes, permuted and sorted by ClassInfo.compareTo |
| Grouping.SortedPaths | src/main/java/com/j256/springrequestdoclet/writer/HtmlPathMapWriter.java:58-59 | fails iff a null path key is among two or more keys; otherwise a permutation of the keys sorted by String.compareTo |

## Left out

- File and stream output (`write`, `writePathSummary`, `writeClassSummary`, `writeClassFiles`, `writeClassFile`, `writeMethodInfo`, `writeParamInfo`, `writeHeader`, `writeTrailer`, `writeLine`): templated I/O. `printArray` returns its text instead of writing it; `writeIfNotNull` is the prefix part of PrintedArray.
- The javadoc API (`ClassDoc`, `MethodDoc`, `Parameter`, `AnnotationDesc`, `AnnotationValue.toString()`, `Type.asClassDoc()`): foreign code. It is replaced by the `Declarations` tree. A value's `toString()` is its `text`, and an array value's element texts are its `elements`. `asClassDoc()` returning null and `methods()` returning null are merged into `classMethods` being none.
- The `java.util.regex` engine: replaced by the scanner in `DocComments`, written for the two patterns only.
- The `(char)` width of Java strings: Dafny characters are Unicode scalar values, not UTF-16 units, so surrogate pairs are not modelled.
- HashMap and HashSet iteration order is unspecified. The grouping takes the iteration order of the path index as a parameter `keys`. No order is stated for the class pages or for the paths inside a class's summary list beyond "iteration order".
- UniqueNames.AddUniqueName: the int counter is unbounded here; the wrap-around at 2^31 that a real loop would need billions of overloads to reach is not modelled.
- EndPoints.Appended: Java lists are shared and mutated; here each list is a value in the map, so aliasing between a returned map and later appends is not modelled.
- Arrays in the records (`paths`, `methods`, ...) are sequences. Only the verb array keeps its in-place rewrite: it is fresh and not seen by anyone else before it is stored.
- `SpringRequestDoclet.java`: the doclet entry point (static state, directory checks, error reporting). It is not part of this model. It also calls a two-argument `write` that does not exist on the writer.
- `EndPointMapWriter.java` and `PathMapWriter.java`: interfaces with no behaviour.
- `MethodInfo` is built with 13 arguments while its constructor takes 12. The record carries `uniqueName` as the collector computes it.
- Grouping.SortBy: `Collections.sort` is a stable merge sort. The model uses an insertion sort that also keeps equal keys in input order, but its stability is not stated as a lemma; only sortedness and permutation are.
- Grouping.SortedPaths: the place where the null key makes `compareTo` throw is not modelled. Every comparison sort compares each element at least once, so the outcome (failure) is the same.
- Collector.EndPointCollector.ProcessClass: after a failure the Java exception propagates out of `processClass`. The model returns `Fail` with the index holding the end-points added before the failing method.

## Findings

The collector and the writer above follow the code as written; each corrected member
stands beside its as-written one, with the intended property proved about it.

| source | as written | input that shows it | evidently intended | confidence | as-written member | corrected member |
|---|---|---|---|---|---|---|
| src/main/java/com/j256/springrequestdoclet/writer/HtmlPathMapWriter.java:422-425 | the suffix counter `i` is never incremented, so the loop retries raw path + "2" forever | three classes whose names slug to one raw path, e.g. `A_B`, `A$B` and a nested class that javadoc names `A.B` | try raw path + 2, + 3, ... until one is free | high (not executed) | ClassFileNames.HtmlPathMapWriter.JavaClassNameToPath, ClassFileNames.CollisionLoopStuck | ClassFileNames.IntendedPath, ClassFileNames.IntendedPathAgrees |
| src/main/java/com/j256/springrequestdoclet/collector/EndPointCollector.java:212-216 | the header branch reads `required` and `defaultValue` from the null `requestParam` annotation and throws | a parameter with only `@RequestHeader("Content-Type")` | read them from the `requestHeader` annotation | high (not executed) | CollectorSpec.ClassifyParam, CollectorSpec.HeaderParamExample | CollectorSpec.IntendedClassifyParam, CollectorSpec.IntendedClassifyParamAgrees |

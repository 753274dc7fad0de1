# describe goal of the configuration-properties descriptor plugin, in Dafny

The Maven goal `describe` reads the `spring-configuration-metadata.json`
file that Spring Boot's annotation processor writes. It binds the file to the
`Metadata` record and sorts the properties by name. It renders them through the
FreeMarker template `template.ftlh` and un-escapes `&lt;`, `&gt;` and `&amp;`
in the result. It then writes the Markdown to the output file. This project
models that pipeline and proves what each step promises:

- `StringOrder`: `String.compareTo` on names. It is antisymmetric, total and
  transitive, and it yields zero exactly on equal names.
- `MetadataModel`: the `Metadata` and `Metadata.Property` records and two
  bindings of a JSON document to them.
  - `BindProperty` and `BindMetadata` bind as the annotations ask.
    `@NonNull` fields must hold a non-null scalar; numbers and booleans are
    coerced to text. `@Nullable` fields may be absent or null. Unknown
    members are ignored. A missing `properties` member leaves the initial
    empty list. This is the corrected binding of "## Findings".
  - `BindPropertyAsWritten` and `BindMetadataAsWritten` bind as Jackson does
    with the annotations as they stand. A missing required member is left
    null. An unknown member of a property object fails the binding.
  - The two bindings agree on every document that is not `null`, holds no
    `null` property, and whose property objects have their three required
    members and no others.
- `PropertySort`: `List.sort` with `Comparator.comparing(Property::getName)`.
  - The specification is a stable insertion sort on sequences, `SortByName`.
  - `SortProperties` sorts an array in place and is proved to produce exactly
    `SortByName` of the original contents.
  - `SortByName` is proved to be a sorted permutation and stable.
  - It is proved to be the only sorted sequence with the input's equal-name
    subsequences.
  - Sorting twice gives the same result as sorting once.
  - The result does not depend on input order when names are distinct.
- `HtmlUnescape`: `unEscapeHtmlTags` as three literal left-to-right
  replace-all passes. Each pass is characterised, and the whole undoes the
  template engine's HTML escaping of `<`, `>` and `&`. Because the `&amp;`
  pass runs last, an escaped `&lt;` comes out as `&lt;`.
- `DescribeMojo`: `readFile`, `parseMetadata`, `generateMarkdown`,
  `writeMarkdownToFile` and `execute`, with their exception mapping.
  - `Describe` is the specification of one run.
  - `Execute` follows the Java control flow, with early returns and an
    in-place array sort, and is proved equal to `Describe`.
  - A `Run` records the outcome, the stages that were entered and the text
    handed to the writer.
  - `DescribeAsWritten` is the same run over the as-written binding. It
    gives no run for a `null` document, a `null` property or a required
    field bound as null, which the model does not follow.
    `DescribeAsWrittenAgrees` shows it equals `Describe` on documents that
    are not `null`, hold no `null` property and whose property objects are
    complete, and whenever the file is missing or unreadable. Every theorem
    about `Describe` is therefore established for the code on those
    documents.

The file system, Jackson's tokenizer, the FreeMarker engine and the output
writer come in as values and functions:
- `InputFile` says whether the file is missing, unreadable or readable with
  some content;
- `TreeReader` gives the document as Jackson's tokenizer reads it, as a JSON
  value, or an I/O error;
- `TemplateEngine` returns a rendering, a template that cannot be loaded, a
  `TemplateException` or an I/O error;
- `OutputWriter` writes text to a path or fails.

Some behaviour of the code is easy to get wrong when reading it:
- When the template is missing or does not parse, `Configuration.getTemplate`
  throws an `IOException` (`DescribeMojo.java:90`). That becomes a
  `MojoExecutionException` ("Can't generate result"), not a
  `MojoFailureException`. Only a `TemplateException` raised while processing
  becomes "Bad Template".
- Property names are not required to be non-empty.
- The comment at `DescribeMojo.java:61-63` asks for a constant order, so that
  the generated file stays unchanged when the properties have not changed.
  Any reordering of the properties gives the same file only when the names
  are distinct. The stable sort keeps equal names in their input order, so
  the file depends on the order within each group of equal names
  (`OutputDependsOnlyOnNameGroups`).
- The un-escaping leaves `&quot;` and `&#39;` in place
  (`UnEscapeInvertsEscape`).
- Two binding details of the code fall short of what its `@NonNull` and
  `@JsonIgnoreProperties` annotations promise. They are listed under
  "## Findings", and both bindings are modelled.

## Model

| member | source | states |
|---|---|---|
| StringOrder.CompareToAntisymmetric | src/main/java/ru/mihkopylov/processor/DescribeMojo.java:66 | comparing a with b gives the negation of comparing b with a |
| StringOrder.CompareToZeroIffEqual | src/main/java/ru/mihkopylov/processor/DescribeMojo.java:66 | compareTo is zero exactly when the names are equal |
| StringOrder.CompareToTransitive | src/main/java/ru/mihkopylov/processor/DescribeMojo.java:66 | "not after" on names is transitive |
| StringOrder.CompareToTotal | src/main/java/ru/mihkopylov/processor/DescribeMojo.java:66 | any two names are comparable one way or the other |
| MetadataModel.BindPropertyFields | src/main/java/ru/mihkopylov/processor/Metadata.java:23-34 | a property object binds iff name, type and sourceType hold non-null scalars and description and defaultValue are absent, null or scalars; the record then holds exactly those texts |
| MetadataModel.OptionalFieldsMayBeAbsent | src/main/java/ru/mihkopylov/processor/Metadata.java:28-33 | an object with only the three required members binds, with description and defaultValue null |
| MetadataModel.UnknownPropertyMembersIgnored | src/main/java/ru/mihkopylov/processor/Metadata.java:15-23 | (corrected binding) adding a member other than the five fields to a property object does not change its binding |
| MetadataModel.BindProperties | src/main/java/ru/mihkopylov/processor/Metadata.java:17-18 | the list binds iff every element is an object that binds; the result has the same length and its i-th record is the i-th element's binding |
| MetadataModel.DefaultPropertiesEmpty | src/main/java/ru/mihkopylov/processor/Metadata.java:17-18 | a document without `properties` binds to the empty, non-null list |
| MetadataModel.BindMetadataKeepsOrder | src/main/java/ru/mihkopylov/processor/Metadata.java:16-18 | a document with a `properties` array binds iff each element binds, and then keeps every element in document order |
| MetadataModel.UnknownMetadataMembersIgnored | src/main/java/ru/mihkopylov/processor/Metadata.java:15-18 | top-level members other than `properties` do not change the binding |
| MetadataModel.AsWrittenAcceptsMissingName | src/main/java/ru/mihkopylov/processor/Metadata.java:24-31 | as written, an object without `name` binds with a null name; the corrected binding fails with the name reported missing |
| MetadataModel.AsWrittenRejectsDeprecatedMember | src/main/java/ru/mihkopylov/processor/Metadata.java:15-23 | as written, a property object with a `deprecated` member fails as unrecognized; the corrected binding accepts it |
| MetadataModel.AsWrittenRejectsUnknownMembers | src/main/java/ru/mihkopylov/processor/Metadata.java:20-34 | as written, any member outside the five fields fails the binding and is named in the error |
| MetadataModel.AsWrittenAgreesWhenComplete | src/main/java/ru/mihkopylov/processor/Metadata.java:23-34 | with all required members present and no others, the as-written and the corrected bindings succeed together, fail with the same error, and give the same texts |
| MetadataModel.BindPropertiesAsWritten | src/main/java/ru/mihkopylov/processor/Metadata.java:18-34 | as written, the list binds iff every element is an object that binds as written; the result keeps length and order |
| MetadataModel.Completed | src/main/java/ru/mihkopylov/processor/Metadata.java:24-31 | the as-written records convert to records iff none has a null name, type or sourceType, and the conversion keeps every field |
| MetadataModel.PropertiesBindingsAgree | src/main/java/ru/mihkopylov/processor/Metadata.java:15-34 | on a list whose object elements are complete, both list bindings succeed together, fail with the same error, and give the same records |
| MetadataModel.BindingsAgreeOnCompleteDocuments | src/main/java/ru/mihkopylov/processor/Metadata.java:15-34 | on a document that is not null, holds no null property and whose property objects are complete, the as-written and the corrected binding succeed together, fail with the same error, and give the same records |
| PropertySort.InsertMultiset | src/main/java/ru/mihkopylov/processor/DescribeMojo.java:66 | one insertion step adds exactly the inserted property |
| PropertySort.InsertSorted | src/main/java/ru/mihkopylov/processor/DescribeMojo.java:66 | inserting into a name-sorted list keeps it sorted |
| PropertySort.FilterInsert | src/main/java/ru/mihkopylov/processor/DescribeMojo.java:66 | insertion puts the new property after every earlier property of the same name |
| PropertySort.SortMultiset | src/main/java/ru/mihkopylov/processor/DescribeMojo.java:66 | sorting keeps every property, duplicates included |
| PropertySort.SortSorted | src/main/java/ru/mihkopylov/processor/DescribeMojo.java:66 | the sorted list is in non-decreasing name order |
| PropertySort.SortStable | src/main/java/ru/mihkopylov/processor/DescribeMojo.java:66 | properties sharing a name keep their input order |
| PropertySort.SortByNameIsSortedPermutation | src/main/java/ru/mihkopylov/processor/DescribeMojo.java:64-67 | the sorted list has the same length and the same elements as the input and is sorted by name |
| PropertySort.SortedUnique | src/main/java/ru/mihkopylov/processor/DescribeMojo.java:66 | two name-sorted lists with the same equal-name subsequences are equal |
| PropertySort.StableSortIsSortByName | src/main/java/ru/mihkopylov/processor/DescribeMojo.java:66 | any sorted list with the input's equal-name subsequences is SortByName of the input, so the stable sort's result is determined |
| PropertySort.SortSortedIsIdentity | src/main/java/ru/mihkopylov/processor/DescribeMojo.java:61-67 | sorting an already sorted list leaves it unchanged |
| PropertySort.SortIdempotent | src/main/java/ru/mihkopylov/processor/DescribeMojo.java:61-67 | sorting twice gives the same list as sorting once |
| PropertySort.SortOrderIndependent | src/main/java/ru/mihkopylov/processor/DescribeMojo.java:61-67 | the sorted list depends only on the equal-name subsequences of the input |
| PropertySort.SortPermutationInvariant | src/main/java/ru/mihkopylov/processor/DescribeMojo.java:61-67 | with distinct names, every permutation of the input sorts to the same list |
| PropertySort.InsertSplit | src/main/java/ru/mihkopylov/processor/DescribeMojo.java:66 | insertion places the property right after the last element whose name does not compare greater |
| PropertySort.InsertAt | src/main/java/ru/mihkopylov/processor/DescribeMojo.java:66 | shifting the array in place makes its first i+1 cells the insertion of cell i into the first i, and leaves the rest alone |
| PropertySort.SortProperties | src/main/java/ru/mihkopylov/processor/DescribeMojo.java:64-67 | after sorting in place the array holds SortByName of its original contents |
| HtmlUnescape.ReplaceAllNoMatch | src/main/java/ru/mihkopylov/processor/DescribeMojo.java:56 | a text with no occurrence of the pattern is returned unchanged |
| HtmlUnescape.ReplaceAllCopiesPrefix | src/main/java/ru/mihkopylov/processor/DescribeMojo.java:56 | a prefix in which no occurrence starts is copied unchanged, and the rest is replaced on its own |
| HtmlUnescape.ReplaceAllFirstMatch | src/main/java/ru/mihkopylov/processor/DescribeMojo.java:56 | with i the leftmost occurrence, the text before i is copied, the occurrence is replaced and the scan resumes right after it; with ReplaceAllNoMatch this fixes replaceAll's result |
| HtmlUnescape.ReplaceAllNotLonger | src/main/java/ru/mihkopylov/processor/DescribeMojo.java:56 | a replacement no longer than the pattern never lengthens the text |
| HtmlUnescape.ReplaceAllWithoutLead | src/main/java/ru/mihkopylov/processor/DescribeMojo.java:56 | a text without the pattern's first character is left alone |
| HtmlUnescape.UnEscapeWithoutAmpersand | src/main/java/ru/mihkopylov/processor/DescribeMojo.java:54-59 | a text without `&` passes through unchanged |
| HtmlUnescape.UnEscapeNotLonger | src/main/java/ru/mihkopylov/processor/DescribeMojo.java:54-59 | un-escaping never lengthens the text |
| HtmlUnescape.PassRestores | src/main/java/ru/mihkopylov/processor/DescribeMojo.java:56 | each of the three passes turns exactly its own entity of the escaped text back into its character |
| HtmlUnescape.UnEscapeInvertsEscape | src/main/java/ru/mihkopylov/processor/DescribeMojo.java:54-59 | un-escaping the engine's HTML escaping of any text restores `<`, `>` and `&`; only the quote entities remain |
| HtmlUnescape.UnEscapeRoundTrip | src/main/java/ru/mihkopylov/processor/DescribeMojo.java:54-59 | a text without quotes comes back exactly after HTML escaping and un-escaping |
| HtmlUnescape.UnEscapeTag | src/main/java/ru/mihkopylov/processor/DescribeMojo.java:56 | `&lt;b&gt;` becomes `<b>` |
| HtmlUnescape.UnEscapeEscapedEntity | src/main/java/ru/mihkopylov/processor/DescribeMojo.java:56 | `&amp;lt;` becomes `&lt;`, not `<`, because the `&amp;` pass runs last |
| DescribeMojo.ReadFilePolicy | src/main/java/ru/mihkopylov/processor/DescribeMojo.java:117-139 | a missing file gives the empty optional iff the flag is off and "not found" (a failure) iff it is on; an unreadable file gives "can't read file" (an execution error) with the configured name; a readable one gives its content |
| DescribeMojo.ParseMetadata | src/main/java/ru/mihkopylov/processor/DescribeMojo.java:104-114 | parsing succeeds iff the `TreeReader` and the binding both succeed, and then returns the bound metadata; every failure is "Can't read JSON from file", an execution error carrying the reader's syntax error or the binding error |
| DescribeMojo.ParseMetadataAsWritten | src/main/java/ru/mihkopylov/processor/DescribeMojo.java:104-114 | parsing with the as-written binding succeeds iff the `TreeReader` and that binding succeed, and then returns the records that binding gives; every failure is "Can't read JSON from file", carrying the reader's syntax error or the binding error |
| DescribeMojo.DescribeAsWrittenAgrees | src/main/java/ru/mihkopylov/processor/DescribeMojo.java:40-51 | on documents that are not null, hold no null property and whose property objects are complete, the run over the as-written binding is exactly Describe's run |
| DescribeMojo.NullDocumentHasNoRun | src/main/java/ru/mihkopylov/processor/DescribeMojo.java:104-114 | as written, a `null` document or a `[null]` property list gives no modelled run; the corrected run stops at parsing with "Can't read JSON from file" |
| DescribeMojo.DeprecatedMemberStopsAtParse | src/main/java/ru/mihkopylov/processor/DescribeMojo.java:104-114 | as written, a document whose property has a `deprecated` member ends at parsing with "Can't read JSON from file" and nothing is written; the corrected binding parses it |
| DescribeMojo.MissingNameGetsPastParse | src/main/java/ru/mihkopylov/processor/DescribeMojo.java:104-114 | as written, a property without `name` is parsed with a null name; the corrected run stops at parsing with the name reported missing |
| DescribeMojo.GenerateMarkdown | src/main/java/ru/mihkopylov/processor/DescribeMojo.java:80-102 | the rendering is returned iff the engine renders; a TemplateException gives a "Bad Template" failure carrying it, a template that cannot be loaded or an I/O error gives a "Can't generate result" execution error carrying the I/O error |
| DescribeMojo.WriteMarkdownToFile | src/main/java/ru/mihkopylov/processor/DescribeMojo.java:69-78 | writing succeeds iff the writer accepts the text at the output path; otherwise "Can't write result to file" with the writer's error |
| DescribeMojo.Execute | src/main/java/ru/mihkopylov/processor/DescribeMojo.java:40-51 | the imperative run, with the properties sorted in place in an array, is exactly the specified run |
| DescribeMojo.AbsentInputStopsQuietly | src/main/java/ru/mihkopylov/processor/DescribeMojo.java:40-45 | a run ends without error and without writing iff the file is missing and the flag is off; a missing file with the flag on and an unreadable file each end the run after loading with their error |
| DescribeMojo.StagesInOrder | src/main/java/ru/mihkopylov/processor/DescribeMojo.java:40-51 | the stages entered are a prefix of load, parse, sort, render, unescape, write; the writer is called iff the write stage is entered; a successful run stopped at the missing file or ran every stage |
| DescribeMojo.WriteOnlyAfterRender | src/main/java/ru/mihkopylov/processor/DescribeMojo.java:46-50 | the writer is reached iff the file was read, parsed and rendered; it receives the un-escaped rendering of the sorted metadata, and its result is the run's |
| DescribeMojo.ErrorMapping | src/main/java/ru/mihkopylov/processor/DescribeMojo.java:69-139 | a run fails with a MojoFailureException iff the file is missing with the flag on or the template raises a TemplateException; it fails with a MojoExecutionException iff reading, parsing, loading the template, rendering I/O or writing fails |
| DescribeMojo.OutputDependsOnlyOnNameGroups | src/main/java/ru/mihkopylov/processor/DescribeMojo.java:61-67 | two documents whose properties agree name by name, in order among equal names, give the same run and the same file |
| DescribeMojo.OutputIndependentOfPropertyOrder | src/main/java/ru/mihkopylov/processor/DescribeMojo.java:61-67 | with distinct names, two documents listing the same properties in any order give the same run and the same file |
| DescribeMojo.ExampleBinding | src/main/java/ru/mihkopylov/processor/Metadata.java:16-34 | a two-property document binds to its two records in document order, optional members absent or present |
| DescribeMojo.ExampleSortOrder | src/main/java/ru/mihkopylov/processor/DescribeMojo.java:66 | `b.x` then `a.y` sorts to `a.y` then `b.x` |
| DescribeMojo.ExampleDescriptionSurvives | src/main/java/ru/mihkopylov/processor/DescribeMojo.java:49 | a description with HTML tags comes back as written after the engine's escaping and un-escaping |

## Left out

- Logging through `getLog()`, the Maven annotations and parameter defaults
  are left out. They have no effect on the outcome.
- Resolution of the file to an absolute path is left out, and so is the path
  text in messages. Errors carry the configured file name.
- The file system is left out. Its state is an `InputFile` value: missing,
  unreadable with an I/O error, or readable with the text `IOUtil.toString`
  returns. The file could also disappear between the existence check and the
  read, which the model treats as unreadable.
- Jackson's tokenizer is left out. `readValue` streams tokens into the
  binding and builds no tree; the `Json` value a `TreeReader` returns is an
  abstraction of the document as the tokenizer reads it, or an I/O error.
  Binding that document to the records is modelled.
- Duplicate JSON keys are left out: a `JObject` holds one value per key.
- Whether a property fails is modelled; which of several bad members Jackson
  reports first is not. The as-written unrecognized-member error carries the
  set of such keys rather than the first one met.
- A `null` root document and a `null` element inside `properties` are left
  out. The corrected binding rejects both as not an object, and
  `DescribeAsWritten` gives no run for them (`NullDocumentHasNoRun`).
  For the text `null`, `readValue` returns null and the debug line of
  `parseMetadata` calls `toString` on it (`DescribeMojo.java:109`). The
  `NullPointerException` is not caught there, since only `IOException` is
  (`DescribeMojo.java:111`), and leaves `execute`. Jackson binds a `null`
  element to a null record. With two or more properties the sort then
  throws a `NullPointerException`. With a single one, the template meets the
  null; FreeMarker reports that as an `InvalidReferenceException`, which is
  a `TemplateException`, and the run ends with "Bad Template" unless the
  template guards against missing values.
- ParseMetadata, `Describe` and `Execute` use the corrected binding.
  The code's own binding is `ParseMetadataAsWritten` and `DescribeAsWritten`.
  The two runs coincide on documents that are not `null`, hold no `null`
  property and whose property objects are complete
  (`DescribeAsWrittenAgrees`). On other documents they differ as the two
  Findings show: an unknown property member stops the code at parsing, and a
  missing required member is accepted.
- BindMetadataAsWritten: rejects a `null` root or a `null` element of
  `properties` as not an object, where Jackson binds a null value; the
  bindings agree only on documents without them, and `DescribeAsWritten`
  screens them out before binding.
- DescribeAsWritten: gives no run for a `null` document or property, or once
  a required field is bound as null.
  After that, the sort throws a `NullPointerException` when a name is null
  and there are two or more properties. Otherwise the template sees the
  null. Neither is modelled, because the template is not part of this model.
- The FreeMarker engine and `template.ftlh` are left out; they are a
  `TemplateEngine` function. `EscapeHtml` states the HTML output format's
  escaping of interpolated text, which the round-trip lemmas use.
- The output file is left out; it is an `OutputWriter` function. A partial
  write before an `IOException` is not modelled.
- `CompareTo` compares Dafny characters (Unicode scalar values), not Java's
  UTF-16 code units. The two orders differ only for names holding characters
  outside the Basic Multilingual Plane.
- `List.sort` (TimSort) is modelled by a stable insertion sort. The two give
  the same list, because `StableSortIsSortByName` shows that sorted-and-stable
  fixes the result.
- `execute` sorts the `Metadata` object's list in place. `Execute` copies the
  list into an array, sorts the array in place and builds the sorted record
  from it. Aliasing of the list by other holders of the record is not modelled.

## Findings

| source | as written | input that shows it | evidently intended | confidence | as-written member | corrected member |
|---|---|---|---|---|---|---|
| src/main/java/ru/mihkopylov/processor/Metadata.java:24-31 | `@NonNull` on `name`, `type` and `sourceType` only makes Lombok's setters reject null. Jackson does not call the setter of a missing member, so a property object without one of them binds with the field left null. | `{"properties":[{"type":"String","sourceType":"Foo"}]}` | a property without a required member fails the parse | not executed | DescribeMojo.MissingNameGetsPastParse | MetadataModel.BindPropertyFields |
| src/main/java/ru/mihkopylov/processor/Metadata.java:15-23 | `@JsonIgnoreProperties(ignoreUnknown = true)` is on `Metadata` only, not on the nested `Property` class. A default `ObjectMapper` therefore fails on an unknown member of a property object. | `{"properties":[{"name":"a","type":"String","sourceType":"Foo","deprecated":true}]}` | unknown members of a property are ignored like unknown top-level members | not executed | DescribeMojo.DeprecatedMemberStopsAtParse | MetadataModel.UnknownPropertyMembersIgnored |

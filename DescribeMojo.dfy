/** The `describe` goal: load the metadata file, bind it, sort the properties,
    render them through the template, un-escape the result and write it.
    The file system, Jackson's tokenizer, the template engine and the output
    file are the caller's: they come in as an InputFile value and as
    functions. A Run records the outcome, the stages that were entered and the
    text handed to the writer, if any. */
module DescribeMojo {
  import opened Wrappers
  import opened JsonTree
  import opened MetadataModel
  import opened PropertySort
  import opened HtmlUnescape
  import opened StringOrder

  const TemplateName := "template.ftlh"

  datatype Config = Config(
    jsonFileName: string,
    outputFileName: string,
    failIfNoMetadataFileFound: bool)

  datatype IoError = IoError(message: string)
  datatype TemplateError = TemplateError(message: string)

  /** What the file system shows of the metadata file. */
  datatype InputFile = NoSuchFile | Unreadable(cause: IoError) | Readable(content: string)

  /** readFile's Optional<String>. */
  datatype LoadResult = Loaded(text: string) | Absent

  /** Jackson's readValue fails on the text (JsonParseException) or while
      binding the document (JsonMappingException); both are IOExceptions. */
  datatype ParseError = SyntaxError(syntax: IoError) | BindingError(binding: BindError)

  datatype Failure =
    | FileNotFound(path: string)
    | BadTemplate(cause: TemplateError)

  datatype Fault =
    | CantReadFile(path: string, cause: IoError)
    | CantReadJson(parse: ParseError)
    | CantGenerateResult(cause: IoError)
    | CantWriteResult(cause: IoError)

  datatype MojoError =
    | MojoFailureException(failure: Failure)
    | MojoExecutionException(fault: Fault)

  /** What the template engine does: getTemplate throws an IOException when
      the template is missing or does not parse; process throws a
      TemplateException on an evaluation error, or an IOException. */
  datatype RenderOutcome =
    | Rendered(text: string)
    | TemplateNotLoaded(cause: IoError)
    | TemplateFailed(templateError: TemplateError)
    | OutputFailed(cause: IoError)

  type TreeReader = string -> Result<Json, IoError>
  type TemplateEngine = (string, Metadata) -> RenderOutcome
  type OutputWriter = (string, string) -> Result<(), IoError>

  datatype Stage = Load | Parse | Sort | Render | Unescape | Write

  const AllStages := [Load, Parse, Sort, Render, Unescape, Write]

  datatype Run = Run(outcome: Result<(), MojoError>, stages: seq<Stage>, written: Option<string>)

  function ReadFile(config: Config, input: InputFile): Result<LoadResult, MojoError>
  {
    match input
    case NoSuchFile =>
      if config.failIfNoMetadataFileFound then Err(MojoFailureException(FileNotFound(config.jsonFileName)))
      else Ok(Absent)
    case Unreadable(e) => Err(MojoExecutionException(CantReadFile(config.jsonFileName, e)))
    case Readable(content) => Ok(Loaded(content))
  }

  function ParseMetadata(text: string, readTree: TreeReader): (r: Result<Metadata, MojoError>)
    ensures r.Err? ==> r.error.MojoExecutionException? && r.error.fault.CantReadJson?
    ensures r.Ok? <==> readTree(text).Ok? && BindMetadata(readTree(text).value).Ok?
    ensures r.Ok? ==> r.value == BindMetadata(readTree(text).value).value
    ensures r.Err? && readTree(text).Err? ==> r.error.fault.parse == SyntaxError(readTree(text).error)
    ensures r.Err? && readTree(text).Ok? ==>
      r.error.fault.parse == BindingError(BindMetadata(readTree(text).value).error)
  {
    match readTree(text)
    case Err(e) => Err(MojoExecutionException(CantReadJson(SyntaxError(e))))
    case Ok(tree) =>
      match BindMetadata(tree)
      case Err(e) => Err(MojoExecutionException(CantReadJson(BindingError(e))))
      case Ok(m) => Ok(m)
  }

  function GenerateMarkdown(metadata: Metadata, engine: TemplateEngine): (r: Result<string, MojoError>)
    ensures r.Ok? <==> engine(TemplateName, metadata).Rendered?
    ensures r.Ok? ==> r.value == engine(TemplateName, metadata).text
    ensures r.Err? && r.error.MojoFailureException? <==> engine(TemplateName, metadata).TemplateFailed?
    ensures r.Err? && r.error.MojoExecutionException? <==>
      engine(TemplateName, metadata).TemplateNotLoaded? || engine(TemplateName, metadata).OutputFailed?
    ensures r.Err? && r.error.MojoFailureException? ==>
      r.error.failure == BadTemplate(engine(TemplateName, metadata).templateError)
    ensures r.Err? && r.error.MojoExecutionException? ==>
      r.error.fault == CantGenerateResult(engine(TemplateName, metadata).cause)
  {
    match engine(TemplateName, metadata)
    case Rendered(text) => Ok(text)
    case TemplateFailed(e) => Err(MojoFailureException(BadTemplate(e)))
    case TemplateNotLoaded(e) => Err(MojoExecutionException(CantGenerateResult(e)))
    case OutputFailed(e) => Err(MojoExecutionException(CantGenerateResult(e)))
  }

  function WriteMarkdownToFile(config: Config, text: string, writer: OutputWriter): (r: Result<(), MojoError>)
    ensures r.Ok? <==> writer(config.outputFileName, text).Ok?
    ensures r.Err? ==> r.error == MojoExecutionException(CantWriteResult(writer(config.outputFileName, text).error))
  {
    match writer(config.outputFileName, text)
    case Ok(_) => Ok(())
    case Err(e) => Err(MojoExecutionException(CantWriteResult(e)))
  }

  /** What one run of the goal does. */
  function Describe(config: Config, input: InputFile, readTree: TreeReader,
                    engine: TemplateEngine, writer: OutputWriter): Run
  {
    match ReadFile(config, input)
    case Err(e) => Run(Err(e), [Load], None)
    case Ok(Absent) => Run(Ok(()), [Load], None)
    case Ok(Loaded(text)) =>
      match ParseMetadata(text, readTree)
      case Err(e) => Run(Err(e), [Load, Parse], None)
      case Ok(m) => RunFrom(config, m, engine, writer)
  }

  /** The stages after parsing: sort, render, un-escape and write. */
  function RunFrom(config: Config, m: Metadata, engine: TemplateEngine, writer: OutputWriter): Run
  {
    match GenerateMarkdown(Metadata(SortByName(m.properties)), engine)
    case Err(e) => Run(Err(e), [Load, Parse, Sort, Render], None)
    case Ok(markdown) =>
      var text := UnEscapeHtmlTags(markdown);
      Run(WriteMarkdownToFile(config, text, writer), AllStages, Some(text))
  }

  /** execute, with the property list sorted in place in an array. */
  method Execute(config: Config, input: InputFile, readTree: TreeReader,
                 engine: TemplateEngine, writer: OutputWriter) returns (run: Run)
    ensures run == Describe(config, input, readTree, engine, writer)
  {
    var loaded := ReadFile(config, input);
    if loaded.Err? {
      return Run(Err(loaded.error), [Load], None);
    }
    if loaded.value.Absent? {
      return Run(Ok(()), [Load], None);
    }
    var parsed := ParseMetadata(loaded.value.text, readTree);
    if parsed.Err? {
      return Run(Err(parsed.error), [Load, Parse], None);
    }
    var props := parsed.value.properties;
    var a := new Property[|props|](i requires 0 <= i < |props| => props[i]);
    assert a[..] == props;
    SortProperties(a);
    var metadata := Metadata(a[..]);
    var markdown := GenerateMarkdown(metadata, engine);
    if markdown.Err? {
      return Run(Err(markdown.error), [Load, Parse, Sort, Render], None);
    }
    var unEscaped := UnEscapeHtmlTags(markdown.value);
    var result := WriteMarkdownToFile(config, unEscaped, writer);
    run := Run(result, AllStages, Some(unEscaped));
  }

  // ----- The binding as written -----

  /** parseMetadata with the binding the code performs: the records may hold
      null required fields, and an unknown property member fails. */
  function ParseMetadataAsWritten(text: string, readTree: TreeReader): (r: Result<seq<JavaProperty>, MojoError>)
    ensures r.Err? ==> r.error.MojoExecutionException? && r.error.fault.CantReadJson?
    ensures r.Ok? <==> readTree(text).Ok? && BindMetadataAsWritten(readTree(text).value).Ok?
    ensures r.Ok? ==> r.value == BindMetadataAsWritten(readTree(text).value).value
    ensures r.Err? && readTree(text).Err? ==> r.error.fault.parse == SyntaxError(readTree(text).error)
    ensures r.Err? && readTree(text).Ok? ==>
      r.error.fault.parse == BindingError(BindMetadataAsWritten(readTree(text).value).error)
  {
    match readTree(text)
    case Err(e) => Err(MojoExecutionException(CantReadJson(SyntaxError(e))))
    case Ok(tree) =>
      match BindMetadataAsWritten(tree)
      case Err(e) => Err(MojoExecutionException(CantReadJson(BindingError(e))))
      case Ok(ps) => Ok(ps)
  }

  /** A run of execute as written. None stands for a run the model does not
      follow: the document is `null`, which throws a NullPointerException in
      parseMetadata's debug line; a `properties` element is `null`, which
      binds a null record; or a required field was bound as null. What the
      code then does is not part of this model. */
  function DescribeAsWritten(config: Config, input: InputFile, readTree: TreeReader,
                             engine: TemplateEngine, writer: OutputWriter): Option<Run>
  {
    match ReadFile(config, input)
    case Err(e) => Some(Run(Err(e), [Load], None))
    case Ok(Absent) => Some(Run(Ok(()), [Load], None))
    case Ok(Loaded(text)) =>
      if readTree(text).Ok? && NullRecord(readTree(text).value) then None
      else
      match ParseMetadataAsWritten(text, readTree)
      case Err(e) => Some(Run(Err(e), [Load, Parse], None))
      case Ok(ps) =>
        match Completed(ps)
        case None => None
        case Some(props) => Some(RunFrom(config, Metadata(props), engine, writer))
  }

  /** Where the document is not null, holds no null property and every
      property object has its three required members and no other, the code
      as written runs exactly as Describe, so every theorem about Describe
      holds of it. */
  lemma DescribeAsWrittenAgrees(config: Config, input: InputFile, readTree: TreeReader,
                                engine: TemplateEngine, writer: OutputWriter)
    requires input.Readable? && readTree(input.content).Ok? ==> CompleteDocument(readTree(input.content).value)
    ensures DescribeAsWritten(config, input, readTree, engine, writer)
         == Some(Describe(config, input, readTree, engine, writer))
  {
    if input.Readable? && readTree(input.content).Ok? {
      CompleteDocumentHasNoNullRecord(readTree(input.content).value);
      BindingsAgreeOnCompleteDocuments(readTree(input.content).value);
    }
  }

  /** A `null` document and a `null` property are runs the model does not
      follow, while the corrected run rejects both at parsing. */
  lemma NullDocumentHasNoRun(config: Config, text: string, readTree: TreeReader,
                             engine: TemplateEngine, writer: OutputWriter)
    requires readTree(text) == Ok(JNull) || readTree(text) == Ok(JObject(map[PropertiesKey := JArray([JNull])]))
    ensures DescribeAsWritten(config, Readable(text), readTree, engine, writer) == None
    ensures Describe(config, Readable(text), readTree, engine, writer)
         == Run(Err(MojoExecutionException(CantReadJson(BindingError(NotAnObject)))), [Load, Parse], None)
  {
    if readTree(text) != Ok(JNull) {
      var items := [JNull];
      assert readTree(text).value.members[PropertiesKey] == JArray(items);
      assert JNull in items;
    }
  }

  const DeprecatedTree := JObject(map[PropertiesKey := JArray([
    JObject(map[NameKey := JString("a"), TypeKey := JString("String"),
                SourceTypeKey := JString("Foo"), DeprecatedKey := JBool(true)])])])

  /** A property with a `deprecated` member stops the code at parsing with
      "Can't read JSON from file" and nothing is written; the corrected
      binding goes on with the property. */
  lemma DeprecatedMemberStopsAtParse(config: Config, text: string, readTree: TreeReader,
                                     engine: TemplateEngine, writer: OutputWriter)
    requires readTree(text) == Ok(DeprecatedTree)
    ensures DescribeAsWritten(config, Readable(text), readTree, engine, writer)
         == Some(Run(Err(MojoExecutionException(CantReadJson(BindingError(UnrecognizedMembers({DeprecatedKey}))))),
                     [Load, Parse], None))
    ensures ParseMetadata(text, readTree) == Ok(Metadata([Property("a", "String", None, "Foo", None)]))
  {
    AsWrittenRejectsDeprecatedMember();
    var items := DeprecatedTree.members[PropertiesKey].items;
    assert |items| == 1;
    assert DeprecatedTree.members[PropertiesKey] == JArray(items);
    assert BindPropertiesAsWritten(items).Err?;
    var p := Property("a", "String", None, "Foo", None);
    assert BindProperty(items[0].members) == Ok(p);
    var r := BindProperties(items);
    assert r.Ok? && r.value == [p];
  }

  const MissingNameTree := JObject(map[PropertiesKey := JArray([
    JObject(map[TypeKey := JString("String"), SourceTypeKey := JString("Foo")])])])

  /** A property without `name` gets past parsing as written, with a null
      name; the corrected binding stops the run there. */
  lemma MissingNameGetsPastParse(config: Config, text: string, readTree: TreeReader,
                                 engine: TemplateEngine, writer: OutputWriter)
    requires readTree(text) == Ok(MissingNameTree)
    ensures ParseMetadataAsWritten(text, readTree) == Ok([JavaProperty(None, Some("String"), None, Some("Foo"), None)])
    ensures DescribeAsWritten(config, Readable(text), readTree, engine, writer) == None
    ensures Describe(config, Readable(text), readTree, engine, writer)
         == Run(Err(MojoExecutionException(CantReadJson(BindingError(RequiredMissing(NameKey))))), [Load, Parse], None)
  {
    AsWrittenAcceptsMissingName();
    var items := MissingNameTree.members[PropertiesKey].items;
    assert |items| == 1;
    assert MissingNameTree.members[PropertiesKey] == JArray(items);
    var j := JavaProperty(None, Some("String"), None, Some("Foo"), None);
    assert BindPropertyAsWritten(items[0].members) == Ok(j);
    var r := BindPropertiesAsWritten(items);
    assert r.Ok? && r.value == [j];
  }

  // ----- Missing-input policy -----

  /** Which outcome readFile gives for each state of the file and the flag. */
  lemma ReadFilePolicy(config: Config, input: InputFile)
    ensures ReadFile(config, input) == Ok(Absent) <==>
      input.NoSuchFile? && !config.failIfNoMetadataFileFound
    ensures ReadFile(config, input) == Err(MojoFailureException(FileNotFound(config.jsonFileName))) <==>
      input.NoSuchFile? && config.failIfNoMetadataFileFound
    ensures (ReadFile(config, input).Err? && ReadFile(config, input).error.MojoExecutionException?) <==>
      input.Unreadable?
    ensures input.Unreadable? ==>
      ReadFile(config, input) == Err(MojoExecutionException(CantReadFile(config.jsonFileName, input.cause)))
    ensures ReadFile(config, input).Ok? && ReadFile(config, input).value.Loaded? <==> input.Readable?
    ensures input.Readable? ==> ReadFile(config, input) == Ok(Loaded(input.content))
  {
  }

  /** A missing file with the flag off ends the run without error, before
      parsing, rendering or writing; no other input ends a run that way. */
  lemma AbsentInputStopsQuietly(config: Config, input: InputFile, readTree: TreeReader,
                                engine: TemplateEngine, writer: OutputWriter)
    ensures var run := Describe(config, input, readTree, engine, writer);
      (run.outcome.Ok? && run.written.None?) <==> (input.NoSuchFile? && !config.failIfNoMetadataFileFound)
    ensures input.NoSuchFile? && !config.failIfNoMetadataFileFound ==>
      Describe(config, input, readTree, engine, writer) == Run(Ok(()), [Load], None)
    ensures input.NoSuchFile? && config.failIfNoMetadataFileFound ==>
      Describe(config, input, readTree, engine, writer) ==
        Run(Err(MojoFailureException(FileNotFound(config.jsonFileName))), [Load], None)
    ensures input.Unreadable? ==>
      Describe(config, input, readTree, engine, writer) ==
        Run(Err(MojoExecutionException(CantReadFile(config.jsonFileName, input.cause))), [Load], None)
  {
  }

  // ----- Stage order and the write -----

  predicate IsPrefix(s: seq<Stage>, t: seq<Stage>)
  {
    |s| <= |t| && s == t[..|s|]
  }

  /** Stages are entered in pipeline order and a failure ends the run; a run
      that succeeds either stopped at the missing file or went all the way. */
  lemma StagesInOrder(config: Config, input: InputFile, readTree: TreeReader,
                      engine: TemplateEngine, writer: OutputWriter)
    ensures var run := Describe(config, input, readTree, engine, writer);
      && run.stages != []
      && IsPrefix(run.stages, AllStages)
      && (Write in run.stages <==> run.written.Some?)
      && (run.outcome.Ok? ==> run.stages == [Load] || run.stages == AllStages)
  {
  }

  /** The sorted metadata the template sees for a loaded text. */
  function SortedMetadata(text: string, readTree: TreeReader): Metadata
    requires ParseMetadata(text, readTree).Ok?
  {
    Metadata(SortByName(ParseMetadata(text, readTree).value.properties))
  }

  /** The writer is reached exactly when loading, parsing and rendering all
      succeeded, and it receives the un-escaped rendering of the sorted
      metadata. */
  lemma WriteOnlyAfterRender(config: Config, input: InputFile, readTree: TreeReader,
                             engine: TemplateEngine, writer: OutputWriter)
    ensures var run := Describe(config, input, readTree, engine, writer);
      run.written.Some? <==>
        && input.Readable?
        && ParseMetadata(input.content, readTree).Ok?
        && engine(TemplateName, SortedMetadata(input.content, readTree)).Rendered?
    ensures var run := Describe(config, input, readTree, engine, writer);
      run.written.Some? ==>
        && run.written.value ==
             UnEscapeHtmlTags(engine(TemplateName, SortedMetadata(input.content, readTree)).text)
        && run.outcome == WriteMarkdownToFile(config, run.written.value, writer)
  {
  }

  /** Which exception a failed run ends with. */
  lemma ErrorMapping(config: Config, input: InputFile, readTree: TreeReader,
                     engine: TemplateEngine, writer: OutputWriter)
    ensures var run := Describe(config, input, readTree, engine, writer);
      run.outcome.Err? && run.outcome.error.MojoFailureException? <==>
        || (input.NoSuchFile? && config.failIfNoMetadataFileFound)
        || (&& input.Readable? && ParseMetadata(input.content, readTree).Ok?
            && engine(TemplateName, SortedMetadata(input.content, readTree)).TemplateFailed?)
    ensures var run := Describe(config, input, readTree, engine, writer);
      run.outcome.Err? && run.outcome.error.MojoExecutionException? <==>
        || input.Unreadable?
        || (input.Readable? && ParseMetadata(input.content, readTree).Err?)
        || (&& input.Readable? && ParseMetadata(input.content, readTree).Ok?
            && var r := engine(TemplateName, SortedMetadata(input.content, readTree));
            || r.TemplateNotLoaded? || r.OutputFailed?
            || (r.Rendered? && writer(config.outputFileName, UnEscapeHtmlTags(r.text)).Err?))
  {
  }

  // ----- Determinism -----

  /** Two documents whose property lists agree name by name, in order among
      equal names, give the same run. */
  lemma OutputDependsOnlyOnNameGroups(config: Config, c1: string, c2: string, readTree: TreeReader,
                                      engine: TemplateEngine, writer: OutputWriter)
    requires ParseMetadata(c1, readTree).Ok? && ParseMetadata(c2, readTree).Ok?
    requires forall k :: Filter(ParseMetadata(c1, readTree).value.properties, k)
                      == Filter(ParseMetadata(c2, readTree).value.properties, k)
    ensures Describe(config, Readable(c1), readTree, engine, writer)
         == Describe(config, Readable(c2), readTree, engine, writer)
  {
    SortOrderIndependent(ParseMetadata(c1, readTree).value.properties,
                         ParseMetadata(c2, readTree).value.properties);
  }

  /** With distinct names, reordering the properties never changes the run. */
  lemma OutputIndependentOfPropertyOrder(config: Config, c1: string, c2: string, readTree: TreeReader,
                                         engine: TemplateEngine, writer: OutputWriter)
    requires ParseMetadata(c1, readTree).Ok? && ParseMetadata(c2, readTree).Ok?
    requires multiset(ParseMetadata(c1, readTree).value.properties)
          == multiset(ParseMetadata(c2, readTree).value.properties)
    requires DistinctNames(ParseMetadata(c1, readTree).value.properties)
    ensures Describe(config, Readable(c1), readTree, engine, writer)
         == Describe(config, Readable(c2), readTree, engine, writer)
  {
    SortPermutationInvariant(ParseMetadata(c1, readTree).value.properties,
                             ParseMetadata(c2, readTree).value.properties);
  }

  // ----- A worked document -----

  const ExampleB := Property("b.x", "String", None, "Foo", None)
  const ExampleA := Property("a.y", "Integer", Some("desc <i>x</i>"), "Bar", Some("5"))

  const ExampleTree := JObject(map[PropertiesKey := JArray([
    JObject(map[NameKey := JString("b.x"), TypeKey := JString("String"), SourceTypeKey := JString("Foo")]),
    JObject(map[NameKey := JString("a.y"), TypeKey := JString("Integer"),
                DescriptionKey := JString("desc <i>x</i>"), SourceTypeKey := JString("Bar"),
                DefaultValueKey := JString("5")])])])

  /** The document binds to b.x then a.y, in document order. */
  lemma ExampleBinding()
    ensures BindMetadata(ExampleTree) == Ok(Metadata([ExampleB, ExampleA]))
  {
    var items := ExampleTree.members[PropertiesKey].items;
    assert |items| == 2;
    assert BindProperty(items[0].members) == Ok(ExampleB);
    assert BindProperty(items[1].members) == Ok(ExampleA);
    var r := BindProperties(items);
    assert r.Ok?;
    assert r.value == [ExampleB, ExampleA];
    assert ExampleTree.members[PropertiesKey] == JArray(items);
  }

  /** The template sees a.y before b.x. */
  lemma ExampleSortOrder()
    ensures SortByName([ExampleB, ExampleA]) == [ExampleA, ExampleB]
  {
    var s := [ExampleB, ExampleA];
    assert s[..1] == [ExampleB] && s[..1][..0] == [];
    assert "b.x"[1..] == ".x" && "a.y"[1..] == ".y";
    assert CompareTo("b.x", "a.y") > 0;
    assert SortByName(s[..1]) == [ExampleB];
    assert Insert([ExampleB], ExampleA) == Insert([], ExampleA) + [ExampleB];
  }

  /** An escaped description with HTML tags comes back as written. */
  lemma ExampleDescriptionSurvives()
    ensures UnEscapeHtmlTags(EscapeHtml("desc <i>x</i>")) == "desc <i>x</i>"
  {
    UnEscapeRoundTrip("desc <i>x</i>");
  }
}

/** The metadata records (Metadata and Metadata.Property) and two bindings of
    a JSON document to them. BindProperty and BindMetadata bind as the
    annotations ask: `@NonNull` fields must hold a non-null scalar,
    `@Nullable` fields may be absent or null, unknown members are ignored and
    the property list starts out empty. The AsWritten functions bind as the
    code behaves: Lombok's `@NonNull` guards only the setters, so a missing
    required member stays null, and the nested Property class does not ignore
    unknown members. */
module MetadataModel {
  import opened Wrappers
  import opened JsonTree

  /** One configuration property. `typeName` is the Java field `type`
      (a keyword in Dafny). */
  datatype Property = Property(
    name: string,
    typeName: string,
    description: Option<string>,
    sourceType: string,
    defaultValue: Option<string>)

  datatype Metadata = Metadata(properties: seq<Property>)

  /** Why binding a JSON document to the records fails. Each of these the
      code's binding can raise, Jackson reports as a JsonMappingException, an
      IOException; RequiredMissing comes only from the corrected binding. */
  datatype BindError =
    | RequiredIsNull(field: string)
    | RequiredMissing(field: string)
    | NotAString(field: string)
    | NotAnObject
    | PropertiesNotAnArray
    | PropertiesIsNull
    | UnrecognizedMembers(keys: set<string>)

  const NameKey := "name"
  const TypeKey := "type"
  const DescriptionKey := "description"
  const SourceTypeKey := "sourceType"
  const DefaultValueKey := "defaultValue"
  const PropertiesKey := "properties"

  const PropertyKeys: set<string> :=
    {NameKey, TypeKey, DescriptionKey, SourceTypeKey, DefaultValueKey}

  /** The metadata record before any member has been bound: an empty list. */
  const EmptyMetadata := Metadata([])

  /** The text Jackson stores into a String field for a non-null scalar;
      numbers and booleans are coerced to their text. */
  function ScalarText(v: Json): Option<string>
  {
    match v
    case JString(s) => Some(s)
    case JNumber(lexeme) => Some(lexeme)
    case JBool(b) => Some(if b then "true" else "false")
    case _ => None
  }

  /** A `@NonNull` String member that must be present. */
  function BindRequired(o: map<string, Json>, key: string): Result<string, BindError>
  {
    if key !in o then Err(RequiredMissing(key))
    else if o[key] == JNull then Err(RequiredIsNull(key))
    else match ScalarText(o[key])
      case Some(s) => Ok(s)
      case None => Err(NotAString(key))
  }

  /** A `@Nullable` String member: absent and null both leave it null. */
  function BindOptional(o: map<string, Json>, key: string): Result<Option<string>, BindError>
  {
    if key !in o || o[key] == JNull then Ok(None)
    else match ScalarText(o[key])
      case Some(s) => Ok(Some(s))
      case None => Err(NotAString(key))
  }

  function BindProperty(o: map<string, Json>): Result<Property, BindError>
  {
    var name :- BindRequired(o, NameKey);
    var typeName :- BindRequired(o, TypeKey);
    var description :- BindOptional(o, DescriptionKey);
    var sourceType :- BindRequired(o, SourceTypeKey);
    var defaultValue :- BindOptional(o, DefaultValueKey);
    Ok(Property(name, typeName, description, sourceType, defaultValue))
  }

  /** A required member is bound exactly when it holds a non-null scalar. */
  predicate RequiredOk(o: map<string, Json>, key: string)
  {
    key in o && ScalarText(o[key]).Some?
  }

  /** An optional member is bound exactly when it is absent, null or a scalar. */
  predicate OptionalOk(o: map<string, Json>, key: string)
  {
    key !in o || o[key] == JNull || ScalarText(o[key]).Some?
  }

  function OptionalText(o: map<string, Json>, key: string): Option<string>
  {
    if key in o then ScalarText(o[key]) else None
  }

  /** Binding a property succeeds exactly when every required member holds a
      scalar and every optional one is absent, null or a scalar; the record
      then holds exactly those texts. */
  lemma BindPropertyFields(o: map<string, Json>)
    ensures BindProperty(o).Ok? <==>
      RequiredOk(o, NameKey) && RequiredOk(o, TypeKey) && RequiredOk(o, SourceTypeKey) &&
      OptionalOk(o, DescriptionKey) && OptionalOk(o, DefaultValueKey)
    ensures BindProperty(o).Ok? ==>
      var p := BindProperty(o).value;
      && Some(p.name) == ScalarText(o[NameKey])
      && Some(p.typeName) == ScalarText(o[TypeKey])
      && Some(p.sourceType) == ScalarText(o[SourceTypeKey])
      && p.description == OptionalText(o, DescriptionKey)
      && p.defaultValue == OptionalText(o, DefaultValueKey)
  {
  }

  /** The optional members may be missing altogether. */
  lemma OptionalFieldsMayBeAbsent(name: string, typeName: string, sourceType: string)
    ensures BindProperty(map[NameKey := JString(name), TypeKey := JString(typeName),
                             SourceTypeKey := JString(sourceType)])
            == Ok(Property(name, typeName, None, sourceType, None))
  {
  }

  /** Members other than the five named ones make no difference. */
  lemma UnknownPropertyMembersIgnored(o: map<string, Json>, key: string, v: Json)
    requires key !in PropertyKeys
    ensures BindProperty(o[key := v]) == BindProperty(o)
  {
    assert forall k :: k in PropertyKeys ==> (k in o[key := v] <==> k in o);
    assert forall k :: k in PropertyKeys && k in o ==> o[key := v][k] == o[k];
  }

  function BindProperties(items: seq<Json>): (r: Result<seq<Property>, BindError>)
    ensures r.Ok? <==>
      forall i :: 0 <= i < |items| ==> items[i].JObject? && BindProperty(items[i].members).Ok?
    ensures r.Ok? ==>
      |r.value| == |items| &&
      forall i :: 0 <= i < |items| ==> r.value[i] == BindProperty(items[i].members).value
  {
    if items == [] then Ok([])
    else match items[0]
      case JObject(o) =>
        var p :- BindProperty(o);
        var rest :- BindProperties(items[1..]);
        assert forall i :: 1 <= i < |items| ==> items[i] == items[1..][i - 1];
        Ok([p] + rest)
      case _ => Err(NotAnObject)
  }

  function BindMetadata(root: Json): Result<Metadata, BindError>
  {
    match root
    case JObject(o) =>
      if PropertiesKey !in o then Ok(EmptyMetadata)
      else (match o[PropertiesKey]
        case JNull => Err(PropertiesIsNull)
        case JArray(items) =>
          var ps :- BindProperties(items);
          Ok(Metadata(ps))
        case _ => Err(PropertiesNotAnArray))
    case _ => Err(NotAnObject)
  }

  /** A document without a `properties` member has the empty, non-null list. */
  lemma DefaultPropertiesEmpty(o: map<string, Json>)
    requires PropertiesKey !in o
    ensures BindMetadata(JObject(o)) == Ok(Metadata([]))
  {
  }

  /** Binding keeps the document's properties, in the document's order. */
  lemma BindMetadataKeepsOrder(o: map<string, Json>, items: seq<Json>)
    requires PropertiesKey in o && o[PropertiesKey] == JArray(items)
    ensures BindMetadata(JObject(o)).Ok? <==>
      forall i :: 0 <= i < |items| ==> items[i].JObject? && BindProperty(items[i].members).Ok?
    ensures BindMetadata(JObject(o)).Ok? ==>
      var ps := BindMetadata(JObject(o)).value.properties;
      |ps| == |items| &&
      forall i :: 0 <= i < |items| ==> ps[i] == BindProperty(items[i].members).value
  {
  }

  /** Top-level members other than `properties` make no difference. */
  lemma UnknownMetadataMembersIgnored(o: map<string, Json>, key: string, v: Json)
    requires key != PropertiesKey
    ensures BindMetadata(JObject(o[key := v])) == BindMetadata(JObject(o))
  {
  }

  // ----- Binding as the annotations have it -----

  /** The Java object Jackson builds: every field is a reference that stays
      null until its setter runs. */
  datatype JavaProperty = JavaProperty(
    name: Option<string>,
    typeName: Option<string>,
    description: Option<string>,
    sourceType: Option<string>,
    defaultValue: Option<string>)

  /** A `@NonNull` field as Lombok guards it: only its generated setter checks
      for null, and Jackson calls the setter only for members that are present,
      so a missing member leaves the field null. */
  function BindNonNullAsWritten(o: map<string, Json>, key: string): Result<Option<string>, BindError>
  {
    if key !in o then Ok(None)
    else if o[key] == JNull then Err(RequiredIsNull(key))
    else match ScalarText(o[key])
      case Some(s) => Ok(Some(s))
      case None => Err(NotAString(key))
  }

  /** The nested Property class carries no `@JsonIgnoreProperties`, so with
      the default ObjectMapper a member other than the five fields fails the
      binding (UnrecognizedPropertyException, a JsonMappingException). */
  function BindPropertyAsWritten(o: map<string, Json>): Result<JavaProperty, BindError>
  {
    if !(o.Keys <= PropertyKeys) then Err(UnrecognizedMembers(o.Keys - PropertyKeys))
    else
      var name :- BindNonNullAsWritten(o, NameKey);
      var typeName :- BindNonNullAsWritten(o, TypeKey);
      var description :- BindOptional(o, DescriptionKey);
      var sourceType :- BindNonNullAsWritten(o, SourceTypeKey);
      var defaultValue :- BindOptional(o, DefaultValueKey);
      Ok(JavaProperty(name, typeName, description, sourceType, defaultValue))
  }

  /** A property object without `name` is accepted with a null name, which the
      corrected binding rejects. */
  lemma AsWrittenAcceptsMissingName()
    ensures BindPropertyAsWritten(map[TypeKey := JString("String"), SourceTypeKey := JString("Foo")])
            == Ok(JavaProperty(None, Some("String"), None, Some("Foo"), None))
    ensures BindProperty(map[TypeKey := JString("String"), SourceTypeKey := JString("Foo")])
            == Err(RequiredMissing(NameKey))
  {
  }

  const DeprecatedKey := "deprecated"

  /** A property object with a `deprecated` member, as Spring Boot writes for
      deprecated properties, is rejected as written and bound by the
      corrected binding. */
  lemma AsWrittenRejectsDeprecatedMember()
    ensures BindPropertyAsWritten(map[NameKey := JString("a"), TypeKey := JString("String"),
                                      SourceTypeKey := JString("Foo"), DeprecatedKey := JBool(true)])
            == Err(UnrecognizedMembers({DeprecatedKey}))
    ensures BindProperty(map[NameKey := JString("a"), TypeKey := JString("String"),
                             SourceTypeKey := JString("Foo"), DeprecatedKey := JBool(true)])
            == Ok(Property("a", "String", None, "Foo", None))
  {
    var o := map[NameKey := JString("a"), TypeKey := JString("String"),
                 SourceTypeKey := JString("Foo"), DeprecatedKey := JBool(true)];
    assert DeprecatedKey in o.Keys && DeprecatedKey !in PropertyKeys;
    assert o.Keys - PropertyKeys == {DeprecatedKey};
  }

  /** As written, any member outside the five fields fails the binding. */
  lemma AsWrittenRejectsUnknownMembers(o: map<string, Json>, key: string, v: Json)
    requires key !in PropertyKeys
    ensures BindPropertyAsWritten(o[key := v]) == Err(UnrecognizedMembers(o[key := v].Keys - PropertyKeys))
    ensures key in BindPropertyAsWritten(o[key := v]).error.keys
  {
    assert key in o[key := v].Keys;
  }

  /** Where every required member is present and no other member appears, the
      two bindings agree. */
  lemma AsWrittenAgreesWhenComplete(o: map<string, Json>)
    requires NameKey in o && TypeKey in o && SourceTypeKey in o
    requires o.Keys <= PropertyKeys
    ensures BindPropertyAsWritten(o).Ok? <==> BindProperty(o).Ok?
    ensures BindProperty(o).Err? ==> BindPropertyAsWritten(o).error == BindProperty(o).error
    ensures BindProperty(o).Ok? ==>
      var p := BindProperty(o).value;
      BindPropertyAsWritten(o).value ==
        JavaProperty(Some(p.name), Some(p.typeName), p.description, Some(p.sourceType), p.defaultValue)
  {
  }

  /** The list binding as written: element by element, in document order. */
  function BindPropertiesAsWritten(items: seq<Json>): (r: Result<seq<JavaProperty>, BindError>)
    ensures r.Ok? <==>
      forall i :: 0 <= i < |items| ==> items[i].JObject? && BindPropertyAsWritten(items[i].members).Ok?
    ensures r.Ok? ==>
      |r.value| == |items| &&
      forall i :: 0 <= i < |items| ==> r.value[i] == BindPropertyAsWritten(items[i].members).value
  {
    if items == [] then Ok([])
    else match items[0]
      case JObject(o) =>
        var p :- BindPropertyAsWritten(o);
        var rest :- BindPropertiesAsWritten(items[1..]);
        assert forall i :: 1 <= i < |items| ==> items[i] == items[1..][i - 1];
        Ok([p] + rest)
      case _ => Err(NotAnObject)
  }

  /** The document binding as the code performs it; the outer class does
      ignore unknown members. */
  function BindMetadataAsWritten(root: Json): Result<seq<JavaProperty>, BindError>
  {
    match root
    case JObject(o) =>
      if PropertiesKey !in o then Ok([])
      else (match o[PropertiesKey]
        case JNull => Err(PropertiesIsNull)
        case JArray(items) => BindPropertiesAsWritten(items)
        case _ => Err(PropertiesNotAnArray))
    case _ => Err(NotAnObject)
  }

  function ToJava(p: Property): JavaProperty
  {
    JavaProperty(Some(p.name), Some(p.typeName), p.description, Some(p.sourceType), p.defaultValue)
  }

  /** The records with every required field set, or None when one is null. */
  function Completed(ps: seq<JavaProperty>): (r: Option<seq<Property>>)
    ensures r.Some? <==>
      forall i :: 0 <= i < |ps| ==> ps[i].name.Some? && ps[i].typeName.Some? && ps[i].sourceType.Some?
    ensures r.Some? ==> |r.value| == |ps| && forall i :: 0 <= i < |ps| ==> ToJava(r.value[i]) == ps[i]
  {
    if ps == [] then Some([])
    else if ps[0].name.None? || ps[0].typeName.None? || ps[0].sourceType.None? then None
    else match Completed(ps[1..])
      case None => None
      case Some(rest) =>
        var p := ps[0];
        assert forall i :: 1 <= i < |ps| ==> ps[i] == ps[1..][i - 1];
        Some([Property(p.name.value, p.typeName.value, p.description, p.sourceType.value, p.defaultValue)] + rest)
  }

  /** A property object with its three required members and nothing else. */
  predicate CompleteObject(o: map<string, Json>)
  {
    NameKey in o && TypeKey in o && SourceTypeKey in o && o.Keys <= PropertyKeys
  }

  /** A document that is null itself or that holds a null element in its
      `properties` list. Jackson binds the first to a null Metadata and the
      second to a null record, neither of which the records above can hold. */
  predicate NullRecord(root: Json)
  {
    root == JNull ||
    (root.JObject? && PropertiesKey in root.members && root.members[PropertiesKey].JArray? &&
     JNull in root.members[PropertiesKey].items)
  }

  /** A document that is not null, holds no null element in its `properties`
      list, and whose property objects are all complete. */
  predicate CompleteDocument(root: Json)
  {
    root != JNull &&
    (root.JObject? && PropertiesKey in root.members && root.members[PropertiesKey].JArray? ==>
      var items := root.members[PropertiesKey].items;
      forall i :: 0 <= i < |items| ==>
        items[i] != JNull && (items[i].JObject? ==> CompleteObject(items[i].members)))
  }

  lemma CompleteDocumentHasNoNullRecord(root: Json)
    requires CompleteDocument(root)
    ensures !NullRecord(root)
  {
  }

  lemma CompletedOfJava(ps: seq<Property>, js: seq<JavaProperty>)
    requires |js| == |ps| && forall i :: 0 <= i < |ps| ==> js[i] == ToJava(ps[i])
    ensures Completed(js) == Some(ps)
  {
  }

  lemma {:induction false} PropertiesBindingsAgree(items: seq<Json>)
    requires forall i :: 0 <= i < |items| && items[i].JObject? ==> CompleteObject(items[i].members)
    ensures BindPropertiesAsWritten(items).Ok? <==> BindProperties(items).Ok?
    ensures BindProperties(items).Err? ==> BindPropertiesAsWritten(items).error == BindProperties(items).error
    ensures BindProperties(items).Ok? ==> Completed(BindPropertiesAsWritten(items).value) == Some(BindProperties(items).value)
  {
    if items != [] && items[0].JObject? {
      var o := items[0].members;
      AsWrittenAgreesWhenComplete(o);
      if BindProperty(o).Ok? {
        var rest := items[1..];
        assert forall i :: 0 <= i < |rest| ==> rest[i] == items[i + 1];
        PropertiesBindingsAgree(rest);
        if BindProperties(items).Ok? {
          CompletedOfJava(BindProperties(items).value, BindPropertiesAsWritten(items).value);
        }
      }
    }
  }

  /** On documents whose property objects are complete, the code's binding
      and the corrected one succeed and fail together, with the same error
      and the same records. */
  lemma BindingsAgreeOnCompleteDocuments(root: Json)
    requires CompleteDocument(root)
    ensures BindMetadataAsWritten(root).Ok? <==> BindMetadata(root).Ok?
    ensures BindMetadata(root).Err? ==> BindMetadataAsWritten(root).error == BindMetadata(root).error
    ensures BindMetadata(root).Ok? ==> Completed(BindMetadataAsWritten(root).value) == Some(BindMetadata(root).value.properties)
  {
    if root.JObject? && PropertiesKey in root.members && root.members[PropertiesKey].JArray? {
      PropertiesBindingsAgree(root.members[PropertiesKey].items);
    }
  }
}

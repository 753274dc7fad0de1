/** A JSON value: an abstraction of the document as Jackson's tokenizer reads
    it and streams it into data binding. Reading text into this value is left
    to the caller of the pipeline; binding it to the metadata records is
    modelled in MetadataModel. */
module JsonTree {

  datatype Json =
    | JNull
    | JBool(b: bool)
    | JNumber(lexeme: string)
    | JString(s: string)
    | JArray(items: seq<Json>)
    | JObject(members: map<string, Json>)
}

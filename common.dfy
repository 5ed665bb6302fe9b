/** Shared result types and the failures the ingestion code can raise. */
module Common {

  datatype Option<T> = None | Some(value: T)

  /** The exceptions the ingestion code lets escape, one constructor per cause. */
  datatype Error =
    | MissingAttribute(tag: string, key: string)  // KeyError from `attrib[key]` on a tag
    | MissingChild(position: nat)                  // IndexError from `root[index]`
    | NoNarrativeText                             // AttributeError: the narrative's text is None
    | MalformedDocument(file: string)             // the XML parser rejected the file
    | IndexOutOfRange(index: int)                 // IndexError from indexing the patient list

  datatype Result<T> = Ok(value: T) | Err(error: Error)
}

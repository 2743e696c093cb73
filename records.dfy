/**
 * The persisted record shapes of the evidence locker. A field that a JavaScript record may
 * leave undefined is an `Option`; a string field whose absence the code only tests for
 * falsiness is a `string` with `""` standing for absent.
 */
module Records {

  datatype Option<T> = None | Some(value: T)

  /** A case workspace. */
  datatype CaseMetadata = CaseMetadata(
    id: string,
    name: string,
    description: string,
    created: string,
    lastModified: string)

  /** One factual assertion on the timeline; `sourceId` links it to the document it came from. */
  datatype TimelineEvent = TimelineEvent(
    id: string,
    date: string,
    title: string,
    cause: string,
    effect: string,
    claim: string,
    relief: string,
    legalSignificance: string,
    sourceCitation: string,
    sourceId: Option<string>,
    needsClarification: bool,
    clarificationQuestion: Option<string>,
    caseId: Option<string>)

  /** A whole document record as the views build it: metadata plus the heavy content group. */
  datatype Document = Document(
    id: string,
    title: string,
    content: Option<string>,
    mediaData: Option<string>,
    date: Option<string>,
    docType: Option<string>,
    hash: Option<string>,
    addedAt: Option<string>,
    batesNumber: Option<string>,
    reliabilityScore: Option<int>,
    caseId: Option<string>)

  /** What the `documents` store keeps: a document without `content` and `mediaData`. */
  datatype DocumentMetadata = DocumentMetadata(
    id: string,
    title: string,
    date: Option<string>,
    docType: Option<string>,
    hash: Option<string>,
    addedAt: Option<string>,
    batesNumber: Option<string>,
    reliabilityScore: Option<int>,
    caseId: Option<string>)

  /** What the `document_blobs` store keeps. */
  datatype DocumentBlob = DocumentBlob(id: string, content: Option<string>, mediaData: Option<string>)

  /** The document a metadata listing yields: every content field is undefined. */
  function Listed(m: DocumentMetadata): (d: Document)
    ensures d.id == m.id && d.title == m.title && d.caseId == m.caseId
    ensures d.content == None && d.mediaData == None
  {
    Document(m.id, m.title, None, None, m.date, m.docType, m.hash, m.addedAt,
             m.batesNumber, m.reliabilityScore, m.caseId)
  }
}

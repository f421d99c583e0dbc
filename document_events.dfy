/**
 * The Document service's event history. Only what the handlers read of an
 * event is kept: its ids, time, version and which kind of event it is. The
 * document entity's own `Apply` is not part of this model, so every fold
 * takes it as a parameter; the order in which events reach it is modelled.
 */
module DocumentEvents {
  import opened Common
  import opened Linq

  /** Which `IDocumentEvent` an event is, with the members the handlers use. */
  datatype EventKind =
    | Uploaded(uploadedByUserId: Guid)
    | Updated(updatedByUserId: Guid)
    | Deleted(deletedByUserId: Guid)
    | RolledBack(rolledBackByUserId: Guid, eventsToReapply: seq<DocumentEvent>)
    | Other

  /**
   * An event: `id` is the event's own `Id`, `documentId` the document it
   * belongs to; a `float?` version is an `Option<real>`.
   */
  datatype DocumentEvent = DocumentEvent(id: Guid, documentId: Guid, occurredAt: Time,
                                         version: Option<real>, kind: EventKind)

  /** The members of the folded `Document` entity that the handlers read. */
  datatype Document = Document(id: Guid, userId: Guid)

  /** `new Document()`: both ids are `Guid.Empty`. */
  const Fresh: Document := Document(EmptyGuid, EmptyGuid)

  /** `Document.Apply`, which is not part of this model. */
  type Applier = (Document, DocumentEvent) -> Document

  function OccurredAt(e: DocumentEvent): int {
    e.occurredAt
  }

  function EventId(e: DocumentEvent): Guid {
    e.id
  }

  function DocumentIdOf(e: DocumentEvent): Guid {
    e.documentId
  }

  /** `x.GetType() == typeof(DocumentDeletedEvent)`. */
  predicate IsDeletedEvent(e: DocumentEvent) {
    e.kind.Deleted?
  }

  /** `group.Any(x => x is DocumentDeletedEvent)`. */
  predicate HasDelete(group: seq<DocumentEvent>) {
    Any(group, IsDeletedEvent)
  }

  /** `new Document()` followed by `doc.Apply(e)` for each event in `OccurredAt` order. */
  function Project(apply: Applier, events: seq<DocumentEvent>): Document {
    FoldLeft(apply, Fresh, SortBy(events, OccurredAt))
  }

  /** The `float?` comparison `x.Version <= v`: false when the version is null. */
  predicate VersionAtMost(e: DocumentEvent, v: real) {
    e.version.Some? && e.version.value <= v
  }
}

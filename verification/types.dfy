/** The records shared by the maintenance agent, the vector-store catalog and
    the classifier. Optional properties are `Option`s. */
module AgentTypes {
  import opened Wrappers

  /** A document found on a fiscal portal's listing page. The crawler's
      enrichment fields (domain, natureza, assuntos, fileName, modelo) are not
      read by the modelled code and are not carried. */
  datatype PortalDocument = PortalDocument(
    portalId: string,
    portalType: Option<string>,
    title: string,
    url: string,
    publishedAt: Option<string>,
    detectedAt: Option<string>,
    contentHash: Option<string>,
    externalId: Option<string>,
    sourceListing: Option<string>)

  /** A watched portal; the source's `type` property is `portalType` here. */
  datatype PortalDefinition = PortalDefinition(
    id: string,
    name: string,
    baseUrl: string,
    listingPath: string,
    portalType: string)

  /** One entry of the vector-store catalog. */
  datatype VectorStoreDefinition = VectorStoreDefinition(id: string, description: string)

  /** The classifier's verdict for a document. The store is absent when the
      catalog is empty. The confidence score and the alternative stores are
      never filled in by the modelled code. */
  datatype ClassifiedDocument = ClassifiedDocument(
    vectorStoreId: Option<string>,
    tags: seq<string>,
    rationale: Option<string>,
    score: Option<int>)
}

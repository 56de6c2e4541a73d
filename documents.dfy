/** The payload records that createDocument submits. They are immutable values;
    the client neither keeps nor changes them. Their JSON field names and date
    format are fixed by annotations read by the serializer, which is not part of
    this model: here they are plain data handed to an encoder. */
module Documents {

  /** A java.util.Date: an instant, in milliseconds since the epoch. */
  datatype Date = Date(epochMillis: int)

  datatype Description = Description(participantInn: string)

  /** The closed set of document types (one variant). */
  datatype DocumentType = LP_INTRODUCE_GOODS

  /** The closed set of production types (one variant). */
  datatype ProductionType = STRING

  /** One line item of a document. */
  datatype Product = Product(
    certificateDocument: string,
    certificateDocumentDate: Date,
    certificateDocumentNumber: string,
    ownerInn: string,
    producerInn: string,
    productionDate: Date,
    tnvedCode: string,
    uitCode: string,
    uituCode: string)

  /** The submission payload. */
  datatype Document = Document(
    description: Description,
    docId: string,
    docStatus: string,
    docType: DocumentType,
    importRequest: bool,
    ownerInn: string,
    participantInn: string,
    producerInn: string,
    productionDate: Date,
    productionType: ProductionType,
    products: seq<Product>,
    regDate: Date,
    regNumber: string)
}

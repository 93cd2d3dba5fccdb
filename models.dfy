/** The value types the helper stores and exchanges (the classes of `system.model`). */
module Models {
  import opened Wrappers

  /** IndexModel: one posting of a term, a document id and the term's frequency in it. */
  datatype Posting = Posting(docId: int, tf: int)

  /** DocumentTermModel: one (term, frequency) entry of a document's term list. */
  datatype DocTerm = DocTerm(term: string, tf: int)

  /** TermIndexModel: one record of the serialized index, a term and its posting list. */
  datatype TermRecord = TermRecord(term: string, invertedList: seq<Posting>)

  /** DocumentIdMapperModel: one entry of the document id file. */
  datatype DocIdMapping = DocIdMapping(docId: int, docName: string)

  /** QueryModel: the id stays unset (None) when the line has no token. */
  datatype Query = Query(id: Option<int>, text: string)

  /** DocumentRankModel: a ranked document; the score is kept as the text Java renders for it. */
  datatype DocumentRank = DocumentRank(docId: int, rankScore: string)

  /** QueryResultModel: a query id and its ranked documents, best first. */
  datatype QueryResult = QueryResult(queryId: int, results: seq<DocumentRank>)

  /** One entry of a directory listing: its name, whether it is a regular file, the lines
      read from it, and whether reading stopped with an error after those lines. */
  datatype FileEntry = FileEntry(name: string, isFile: bool, lines: seq<string>, readFails: bool)

  /** One result file that printIndex writes: its name (without ".txt") and its text. */
  datatype ResultFile = ResultFile(name: string, text: string)

  /** The in-memory inverted index: each term's posting list. */
  type Index = map<string, seq<Posting>>
}

/**
 * The two text formats the helper handles line by line: the query file read by
 * getQueryList and the trec-style result files written by printIndex.
 */
module Reports {
  import opened Wrappers
  import opened Models
  import opened Text
  import opened Collections

  /** One line of the query file, as getQueryList reads it: the first token, when there is one,
      is the query id; the other tokens, each followed by a space and the whole trimmed, are the
      query text. `None` is the NumberFormatException of an id that is not an int. */
  function QueryOfLine(line: string): Option<Query> {
    var ts := Tokens(line, TokenizerDelims);
    if ts == [] then Some(Query(None, ""))
    else
      match ParseInt(ts[0])
      case None => None
      case Some(id) => Some(Query(Some(id), Trim(Terminated(ts[1..], ' '))))
  }

  /** The body of getQueryList's loop: tokenize, parse the id, rebuild the text in a buffer. */
  method ParseQueryLine(line: string) returns (query: Option<Query>)
    ensures query == QueryOfLine(line)
  {
    var ts := Tokens(line, TokenizerDelims);
    var id: Option<int> := None;
    var next := 0;
    if next < |ts| {
      var parsed := ParseInt(ts[next]);
      if parsed.None? {
        return None;
      }
      id := parsed;
      next := next + 1;
    }
    var first := next;
    var sb := "";
    while next < |ts|
      invariant first <= next <= |ts|
      invariant sb == Terminated(ts[first..next], ' ')
    {
      TerminatedSnoc(ts[first..next], ts[next], ' ');
      assert ts[first..next + 1] == ts[first..next] + [ts[next]];
      sb := sb + ts[next] + " ";
      next := next + 1;
    }
    assert ts[first..next] == ts[first..];
    query := Some(Query(id, Trim(sb)));
  }

  /** getQueryList over the lines of the query file: one query per line, in order, or the
      failure of the first line whose id does not parse. */
  method GetQueryList(lines: seq<string>) returns (queries: Option<seq<Query>>)
    ensures queries == ParseAll(lines, QueryOfLine)
    ensures queries.None? <==> exists i :: 0 <= i < |lines| && QueryOfLine(lines[i]).None?
    ensures queries.Some? ==> |queries.value| == |lines|
    ensures queries.Some? ==> forall i :: 0 <= i < |lines| ==> QueryOfLine(lines[i]) == Some(queries.value[i])
  {
    var queryList: seq<Query> := [];
    var i := 0;
    while i < |lines|
      invariant 0 <= i <= |lines|
      invariant ParseAll(lines[..i], QueryOfLine) == Some(queryList)
    {
      assert lines[..i + 1][..i] == lines[..i];
      var query := ParseQueryLine(lines[i]);
      if query.None? {
        ParseAllAfterFailure(lines, QueryOfLine, i + 1);
        ParseAllEach(lines, QueryOfLine);
        return None;
      }
      queryList := queryList + [query.value];
      i := i + 1;
    }
    assert lines[..i] == lines;
    ParseAllEach(lines, QueryOfLine);
    queries := Some(queryList);
  }

  /** A line made of an int and words, separated by single spaces, reads back as that id and
      those words joined by single spaces, provided no word begins or ends with a character
      `trim` strips. */
  lemma QueryLineRoundTrip(id: int, words: seq<string>)
    requires IntMin <= id <= IntMax
    requires forall i :: 0 <= i < |words| ==>
      IsWord(words[i], TokenizerDelims) && words[i][0] > ' ' && words[i][|words[i]| - 1] > ' '
    ensures QueryOfLine(Join([IntToString(id)] + words, ' ')) == Some(Query(Some(id), Join(words, ' ')))
  {
    var ws := [IntToString(id)] + words;
    assert IsWord(IntToString(id), TokenizerDelims);
    assert forall i :: 0 <= i < |ws| ==> IsWord(ws[i], TokenizerDelims) by {
      forall i | 0 <= i < |ws| ensures IsWord(ws[i], TokenizerDelims) {
        if i > 0 {
          assert ws[i] == words[i - 1];
        }
      }
    }
    TokensOfJoin(ws, ' ', TokenizerDelims);
    IntRoundTrip(id);
    assert ws[1..] == words;
    TrimTerminated(words);
  }

  /** Tokens none of which begins or ends with a character `trim` strips. */
  predicate TrimSafe(ts: seq<string>) {
    forall i :: 0 <= i < |ts| ==> ts[i] != [] && ts[i][0] > ' ' && ts[i][|ts[i]| - 1] > ' '
  }

  /** The query text keeps the line's tokens after the id, in order, when none of them begins
      or ends with a character `trim` strips. */
  lemma QueryTextTokens(line: string)
    requires TrimSafe(Tokens(line, TokenizerDelims))
    ensures var ts := Tokens(line, TokenizerDelims);
      ts != [] && QueryOfLine(line).Some? ==> Tokens(QueryOfLine(line).value.text, TokenizerDelims) == ts[1..]
  {
    var ts := Tokens(line, TokenizerDelims);
    if ts != [] && ParseInt(ts[0]).Some? {
      RebuiltTextTokens(ts[1..]);
    }
  }

  lemma RebuiltTextTokens(rest: seq<string>)
    requires TrimSafe(rest)
    requires forall i :: 0 <= i < |rest| ==> IsWord(rest[i], TokenizerDelims)
    ensures Tokens(Trim(Terminated(rest, ' ')), TokenizerDelims) == rest
  {
    TrimTerminated(rest);
    TokensOfJoin(rest, ' ', TokenizerDelims);
  }

  /** One result line, `<qid> Q0 <docId> <rank> <score> <tag>`, as printIndex assembles it. */
  function ResultLine(queryId: int, docRank: DocumentRank, rank: int, tag: string): string {
    IntToString(queryId) + " Q0 " + IntToString(docRank.docId) + " " + IntToString(rank) + " " +
    docRank.rankScore + " " + tag
  }

  /** The lines of one query's result file: one per ranked document, in list order, ranked from 1. */
  function ResultLines(model: QueryResult, tag: string): seq<string> {
    seq(|model.results|, j requires 0 <= j < |model.results| => ResultLine(model.queryId, model.results[j], j + 1, tag))
  }

  /** printIndex turns each query's results into a file named `<tag>_<qid>` whose text is its
      result lines, each ended by a newline. Writing the files is left to the caller. */
  method PrintIndex(queryResult: seq<QueryResult>, resultType: string) returns (files: seq<ResultFile>)
    ensures |files| == |queryResult|
    ensures forall i :: 0 <= i < |queryResult| ==> files[i] == ResultFileOf(queryResult[i], resultType)
  {
    files := [];
    var i := 0;
    while i < |queryResult|
      invariant 0 <= i <= |queryResult| && |files| == i
      invariant forall k :: 0 <= k < i ==> files[k] == ResultFileOf(queryResult[k], resultType)
    {
      var file := PrintQueryResult(queryResult[i], resultType);
      ghost var before := files;
      files := files + [file];
      assert forall k :: 0 <= k < i ==> files[k] == before[k];
      i := i + 1;
    }
  }

  /** The result file of one query: named `<tag>_<qid>`, holding its result lines, each ended
      by a newline. */
  function ResultFileOf(model: QueryResult, tag: string): ResultFile {
    ResultFile(tag + "_" + IntToString(model.queryId), Terminated(ResultLines(model, tag), '\n'))
  }

  /** The body of printIndex's outer loop: the results of one query appended to a buffer,
      line by line, with the rank counted up from 1, and the file name built from the tag and
      the query id. */
  method PrintQueryResult(model: QueryResult, resultType: string) returns (file: ResultFile)
    ensures file == ResultFileOf(model, resultType)
  {
    var lines := ResultLines(model, resultType);
    var rank := 1;
    var sb := "";
    var j := 0;
    while j < |model.results|
      invariant 0 <= j <= |model.results| && rank == j + 1
      invariant sb == Terminated(lines[..j], '\n')
    {
      var docRankModel := model.results[j];
      ResultTextStep(lines, j, sb, model.queryId, docRankModel, rank, resultType);
      sb := sb + (IntToString(model.queryId) + " Q0 ");
      sb := sb + (IntToString(docRankModel.docId) + " ");
      sb := sb + (IntToString(rank) + " " + docRankModel.rankScore + " ");
      sb := sb + (resultType + "\n");
      rank := rank + 1;
      j := j + 1;
    }
    assert lines[..j] == lines;
    file := ResultFile(resultType + "_" + IntToString(model.queryId), sb);
  }

  lemma ResultTextStep(lines: seq<string>, j: nat, sb: string, queryId: int, docRank: DocumentRank, rank: int, tag: string)
    requires j < |lines| && sb == Terminated(lines[..j], '\n')
    requires lines[j] == ResultLine(queryId, docRank, rank, tag)
    ensures sb + (IntToString(queryId) + " Q0 ") + (IntToString(docRank.docId) + " ") +
      (IntToString(rank) + " " + docRank.rankScore + " ") + (tag + "\n") == Terminated(lines[..j + 1], '\n')
  {
    AppendResultLine(sb, queryId, docRank, rank, tag);
    TerminatedSnoc(lines[..j], lines[j], '\n');
    assert lines[..j + 1] == lines[..j] + [lines[j]];
  }

  lemma AppendResultLine(sb: string, queryId: int, docRank: DocumentRank, rank: int, tag: string)
    ensures sb + (IntToString(queryId) + " Q0 ") + (IntToString(docRank.docId) + " ") +
      (IntToString(rank) + " " + docRank.rankScore + " ") + (tag + "\n") ==
      sb + ResultLine(queryId, docRank, rank, tag) + "\n"
  {
  }

  /** The six fields of a result line, in the order the trec format reads them. */
  function ResultFields(queryId: int, docRank: DocumentRank, rank: int, tag: string): seq<string> {
    [IntToString(queryId), "Q0", IntToString(docRank.docId), IntToString(rank), docRank.rankScore, tag]
  }

  lemma ResultLineIsJoin(queryId: int, docRank: DocumentRank, rank: int, tag: string)
    ensures ResultLine(queryId, docRank, rank, tag) == Join(ResultFields(queryId, docRank, rank, tag), ' ')
  {
    var f := ResultFields(queryId, docRank, rank, tag);
    var q := IntToString(queryId);
    assert f[..1] == [q];
    JoinSnoc(f[..1], f[1], ' ');
    assert f[..2] == f[..1] + [f[1]];
    JoinSnoc(f[..2], f[2], ' ');
    assert f[..3] == f[..2] + [f[2]];
    JoinSnoc(f[..3], f[3], ' ');
    assert f[..4] == f[..3] + [f[3]];
    JoinSnoc(f[..4], f[4], ' ');
    assert f[..5] == f[..4] + [f[4]];
    JoinSnoc(f[..5], f[5], ' ');
    assert f == f[..5] + [f[5]];
    assert Join(f[..2], ' ') + " " == q + " Q0 ";
  }

  /** Split at spaces, a result line gives back its six fields, and the id, document and rank
      fields parse back to their values, when score and tag are single words. */
  lemma ResultLineRoundTrip(queryId: int, docRank: DocumentRank, rank: int, tag: string)
    requires IntMin <= queryId <= IntMax && IntMin <= docRank.docId <= IntMax && IntMin <= rank <= IntMax
    requires IsWord(docRank.rankScore, {' '}) && IsWord(tag, {' '})
    ensures var fields := Tokens(ResultLine(queryId, docRank, rank, tag), {' '});
      |fields| == 6 && ParseInt(fields[0]) == Some(queryId) && fields[1] == "Q0" &&
      ParseInt(fields[2]) == Some(docRank.docId) && ParseInt(fields[3]) == Some(rank) &&
      fields[4] == docRank.rankScore && fields[5] == tag
  {
    var f := ResultFields(queryId, docRank, rank, tag);
    ResultLineIsJoin(queryId, docRank, rank, tag);
    assert IsWord(IntToString(queryId), {' '});
    assert IsWord(IntToString(docRank.docId), {' '});
    assert IsWord(IntToString(rank), {' '});
    assert IsWord("Q0", {' '});
    TokensOfJoin(f, ' ', {' '});
    IntRoundTrip(queryId);
    IntRoundTrip(docRank.docId);
    IntRoundTrip(rank);
  }

  /** Split at newlines, a query's result text gives back one line per ranked document, in
      list order, when scores and tag hold no newline. */
  lemma ResultTextLines(model: QueryResult, tag: string)
    requires IsWord(tag, {'\n'})
    requires forall j :: 0 <= j < |model.results| ==> IsWord(model.results[j].rankScore, {'\n'})
    ensures Tokens(Terminated(ResultLines(model, tag), '\n'), {'\n'}) == ResultLines(model, tag)
  {
    var lines := ResultLines(model, tag);
    forall j | 0 <= j < |lines| ensures IsWord(lines[j], {'\n'}) {
      var r := model.results[j];
      var f := ResultFields(model.queryId, r, j + 1, tag);
      ResultLineIsJoin(model.queryId, r, j + 1, tag);
      assert IsWord(IntToString(model.queryId), {'\n'});
      assert IsWord(IntToString(r.docId), {'\n'});
      assert IsWord(IntToString(j + 1), {'\n'});
      assert IsWord("Q0", {'\n'});
      JoinIsWord(f, ' ', {'\n'});
    }
    TokensOfTerminated(lines, '\n', {'\n'});
  }

  /** The j-th line of a query's result file names the query, the j-th ranked document and the
      rank j + 1, with that document's score and the tag (the result type). */
  lemma PrintedRanks(model: QueryResult, tag: string, j: nat)
    requires j < |model.results| && j + 1 <= IntMax
    requires IntMin <= model.queryId <= IntMax && IntMin <= model.results[j].docId <= IntMax
    requires IsWord(tag, {'\n', ' '})
    requires forall k :: 0 <= k < |model.results| ==> IsWord(model.results[k].rankScore, {'\n', ' '})
    ensures var lines := Tokens(Terminated(ResultLines(model, tag), '\n'), {'\n'});
      |lines| == |model.results| &&
      var fields := Tokens(lines[j], {' '});
      |fields| == 6 && ParseInt(fields[0]) == Some(model.queryId) &&
      ParseInt(fields[2]) == Some(model.results[j].docId) && ParseInt(fields[3]) == Some(j + 1) &&
      fields[4] == model.results[j].rankScore && fields[5] == tag
  {
    forall k | 0 <= k < |model.results| ensures IsWord(model.results[k].rankScore, {'\n'}) {
      WordNarrower(model.results[k].rankScore);
    }
    WordNarrower(tag);
    ResultTextLines(model, tag);
    var r := model.results[j];
    assert IsWord(r.rankScore, {'\n', ' '});
    WordWider(r.rankScore);
    WordWider(tag);
    ResultLineRoundTrip(model.queryId, r, j + 1, tag);
  }

  lemma WordNarrower(w: string)
    requires IsWord(w, {'\n', ' '})
    ensures IsWord(w, {'\n'})
  {
  }

  lemma WordWider(w: string)
    requires IsWord(w, {'\n', ' '})
    ensures IsWord(w, {' '})
  {
  }
}

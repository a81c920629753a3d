/** Cursor-paginated extraction of one endpoint (`fetchPaginatedData`).
    The reporting API is replaced by a script: the replies the server gives,
    in the order the loop asks for them. */
module Extraction {
  import opened Records
  import opened Config

  /** The date window of the run; its ends are combined with the fixed
      times of day of `PERIODO_INICIAL` and `PERIODO_FINAL`. */
  datatype Window = Window(dataInicial: string, dataFinal: string)

  function PeriodoInicial(w: Window): (instant: string) { w.dataInicial + "T00:00:00" }
  function PeriodoFinal(w: Window): (instant: string) { w.dataFinal + "T23:59:59" }

  /** The body of one page request. */
  datatype RequestBody = RequestBody(
    idCampanha: int, periodoInicial: string, periodoFinal: string, ultimoId: int)

  /** What one page request yields: a payload (its record arrays keyed by
      field name), a response without payload, or a thrown request error. */
  datatype Reply =
    | Payload(codStatus: int, fields: map<string, seq<Record>>, idProxPagina: int, endOfTable: bool)
    | NoPayload
    | TransportError

  /** `data[dataField]`, with a missing array read as an empty one. */
  function PageRecords(r: Reply, dataField: string): (page: seq<Record>)
  {
    if r.Payload? && dataField in r.fields then r.fields[dataField] else []
  }

  /** A successful page: status code 1 and a non-empty record array. */
  predicate IsSuccess(r: Reply, dataField: string)
  {
    r.Payload? && r.codStatus == 1 && |PageRecords(r, dataField)| > 0
  }

  /** A reply after which the loop asks for another page. */
  predicate Continues(r: Reply, dataField: string)
  {
    IsSuccess(r, dataField) && !r.endOfTable && r.idProxPagina != 0
  }

  /** The records a reply contributes: its array when it is a successful
      page, nothing otherwise. */
  function Gained(r: Reply, dataField: string): (gained: seq<Record>)
  {
    if IsSuccess(r, dataField) then PageRecords(r, dataField) else []
  }

  /** The in-order concatenation of what the given replies contribute. */
  function Collected(replies: seq<Reply>, dataField: string): (records: seq<Record>)
  {
    if replies == [] then []
    else Collected(replies[..|replies| - 1], dataField) + Gained(replies[|replies| - 1], dataField)
  }

  /** How many replies of the script the loop consumes: every reply up to and
      including the first one that does not continue, or all of them. */
  function Consumed(script: seq<Reply>, dataField: string): (n: nat)
    ensures n <= |script|
    ensures script != [] ==> 1 <= n
    ensures forall j :: 0 <= j < n - 1 ==> Continues(script[j], dataField)
    ensures 0 < n < |script| ==> !Continues(script[n - 1], dataField)
  {
    if script == [] then 0
    else if Continues(script[0], dataField) then 1 + Consumed(script[1..], dataField)
    else 1
  }

  /** The script reaches a reply that ends the loop. */
  predicate Finished(script: seq<Reply>, dataField: string)
  {
    var n := Consumed(script, dataField);
    0 < n && !Continues(script[n - 1], dataField)
  }

  /** The records extraction returns for a script. */
  function Extracted(script: seq<Reply>, dataField: string): (records: seq<Record>)
  {
    Collected(script[..Consumed(script, dataField)], dataField)
  }

  /** The cursor carried by request `j`: 0 for the first, afterwards the
      `idProxPagina` of the reply before it. */
  function Cursor(script: seq<Reply>, j: nat): (ultimoId: int)
    requires j <= |script|
  {
    if j == 0 || !script[j - 1].Payload? then 0 else script[j - 1].idProxPagina
  }

  /** The request bodies the loop sends for a script. */
  function Requests(e: Endpoint, w: Window, script: seq<Reply>): (bodies: seq<RequestBody>)
  {
    RequestsUpTo(e, w, script, Consumed(script, e.dataField))
  }

  /** The bodies of the first `n` requests, each carrying its cursor. */
  function RequestsUpTo(e: Endpoint, w: Window, script: seq<Reply>, n: nat): (bodies: seq<RequestBody>)
    requires n <= |script|
    ensures |bodies| == n
  {
    if n == 0 then []
    else RequestsUpTo(e, w, script, n - 1) + [RequestBody(e.idCampanha, PeriodoInicial(w), PeriodoFinal(w), Cursor(script, n - 1))]
  }

  /** Request `k` carries the campaign, the window and the cursor `Cursor(script, k)`. */
  lemma {:induction false} RequestAt(e: Endpoint, w: Window, script: seq<Reply>, n: nat, k: nat)
    requires k < n <= |script|
    ensures RequestsUpTo(e, w, script, n)[k] ==
      RequestBody(e.idCampanha, PeriodoInicial(w), PeriodoFinal(w), Cursor(script, k))
  {
    if k < n - 1 {
      RequestAt(e, w, script, n - 1, k);
    }
  }

  /** Every request body sent carries its cursor. */
  lemma RequestCursors(e: Endpoint, w: Window, script: seq<Reply>)
    ensures |Requests(e, w, script)| == Consumed(script, e.dataField)
    ensures forall j :: 0 <= j < |Requests(e, w, script)| ==>
      Requests(e, w, script)[j] == RequestBody(e.idCampanha, PeriodoInicial(w), PeriodoFinal(w), Cursor(script, j))
  {
    var n := Consumed(script, e.dataField);
    forall j | 0 <= j < n
      ensures RequestsUpTo(e, w, script, n)[j] ==
        RequestBody(e.idCampanha, PeriodoInicial(w), PeriodoFinal(w), Cursor(script, j))
    {
      RequestAt(e, w, script, n, j);
    }
  }

  /** Two scripts that agree on their first `n` replies give the same first
      `n` request bodies. */
  lemma {:induction false} RequestsAgree(e: Endpoint, w: Window, a: seq<Reply>, b: seq<Reply>, n: nat)
    requires n <= |a| && n <= |b| && a[..n] == b[..n]
    ensures RequestsUpTo(e, w, a, n) == RequestsUpTo(e, w, b, n)
  {
    if n > 0 {
      assert a[..n - 1] == a[..n][..n - 1] == b[..n][..n - 1] == b[..n - 1];
      RequestsAgree(e, w, a, b, n - 1);
      if n > 1 {
        assert a[n - 2] == a[..n][n - 2] == b[..n][n - 2] == b[n - 2];
      }
    }
  }

  /** The pagination loop. `records` is `allRecords`, `requests` the bodies
      sent, in order; `finished` is false only when the loop would have asked
      for a page beyond the end of the script. */
  method FetchPaginatedData(e: Endpoint, w: Window, script: seq<Reply>)
    returns (records: seq<Record>, requests: seq<RequestBody>, finished: bool)
    ensures |requests| == Consumed(script, e.dataField)
    ensures requests == Requests(e, w, script)
    ensures records == Extracted(script, e.dataField)
    ensures finished <==> Finished(script, e.dataField)
  {
    records, requests := [], [];
    var ultimoId := 0;
    var endOfTable := false;
    var consumed := 0;
    while !endOfTable
      invariant consumed == |requests| <= |script|
      invariant forall j :: 0 <= j < consumed - 1 ==> Continues(script[j], e.dataField)
      invariant endOfTable <==> 0 < consumed && !Continues(script[consumed - 1], e.dataField)
      invariant !endOfTable ==> ultimoId == Cursor(script, consumed)
      invariant requests == RequestsUpTo(e, w, script, consumed)
      invariant records == Collected(script[..consumed], e.dataField)
      decreases |script| - consumed
    {
      if consumed == |script| {
        break;
      }
      var reply := script[consumed];
      requests := requests + [RequestBody(e.idCampanha, PeriodoInicial(w), PeriodoFinal(w), ultimoId)];
      CollectedStep(script, consumed, e.dataField);
      consumed := consumed + 1;
      var gained, next, stop := ReadReply(reply, e.dataField, ultimoId);
      records := records + gained;
      ultimoId := next;
      endOfTable := stop;
    }
    PageLoopExit(e, w, script, consumed, requests, endOfTable);
    finished := endOfTable;
  }

  /** The handling of one response inside the `try` block: a successful page
      hands over its records and moves the cursor on, and anything else ends
      the loop. */
  method ReadReply(reply: Reply, dataField: string, ultimoId: int)
    returns (gained: seq<Record>, next: int, endOfTable: bool)
    ensures gained == Gained(reply, dataField)
    ensures endOfTable <==> !Continues(reply, dataField)
    ensures !endOfTable ==> next == reply.idProxPagina
  {
    gained, next := [], ultimoId;
    match reply
    case Payload(codStatus, fields, idProxPagina, eot) =>
      var page := if dataField in fields then fields[dataField] else [];
      if codStatus == 1 && |page| > 0 {
        gained := page;
        next := idProxPagina;
        endOfTable := eot || next == 0;
      } else {
        endOfTable := true;
      }
    case NoPayload | TransportError =>
      endOfTable := true;
  }

  /** Where the loop leaves off: the count it consumed is `Consumed`, the
      bodies it sent are `Requests`, and it stopped exactly when the script
      reached a stopping reply. */
  lemma PageLoopExit(e: Endpoint, w: Window, script: seq<Reply>, consumed: nat, requests: seq<RequestBody>, endOfTable: bool)
    requires consumed == |requests| <= |script|
    requires forall j :: 0 <= j < consumed - 1 ==> Continues(script[j], e.dataField)
    requires endOfTable <==> 0 < consumed && !Continues(script[consumed - 1], e.dataField)
    requires endOfTable || consumed == |script|
    ensures consumed == Consumed(script, e.dataField)
    ensures endOfTable <==> Finished(script, e.dataField)
  {
    ConsumedAtFirstStop(script, e.dataField, consumed);
  }

  /** Reading one more reply adds what that reply contributes. */
  lemma CollectedStep(script: seq<Reply>, m: nat, dataField: string)
    requires m < |script|
    ensures Collected(script[..m + 1], dataField) == Collected(script[..m], dataField) + Gained(script[m], dataField)
  {
    assert script[..m + 1][..m] == script[..m];
  }

  /** `Consumed` is determined by where the first stopping reply is: a count
      `m` whose earlier replies all continue, and which either ends at a
      stopping reply or runs to the end of the script, is `Consumed`. */
  lemma ConsumedAtFirstStop(script: seq<Reply>, dataField: string, m: nat)
    requires m <= |script|
    requires forall j :: 0 <= j < m - 1 ==> Continues(script[j], dataField)
    requires (0 < m && !Continues(script[m - 1], dataField)) || (m == |script| && (m == 0 || Continues(script[m - 1], dataField)))
    ensures Consumed(script, dataField) == m
  {
  }

  /** Concatenation: the records of two runs of replies are the records of
      the first followed by those of the second. */
  lemma {:induction false} CollectedAppend(a: seq<Reply>, b: seq<Reply>, dataField: string)
    ensures Collected(a + b, dataField) == Collected(a, dataField) + Collected(b, dataField)
    decreases |b|
  {
    if b == [] {
      assert a + b == a;
    } else {
      var last := b[|b| - 1];
      assert (a + b)[..|a + b| - 1] == a + b[..|b| - 1];
      CollectedAppend(a, b[..|b| - 1], dataField);
    }
  }

  /** A reply that is not a successful page — an empty or failed payload, a
      missing payload or a request error — adds no records. */
  lemma FailedReplyAddsNothing(prefix: seq<Reply>, r: Reply, dataField: string)
    requires !IsSuccess(r, dataField)
    ensures Collected(prefix + [r], dataField) == Collected(prefix, dataField)
  {
  }

  /** Once the loop has stopped, the replies the server would give afterwards
      are never asked for and change nothing: the same requests are sent and
      the same records returned. */
  lemma NoRequestAfterStop(e: Endpoint, w: Window, script: seq<Reply>, more: seq<Reply>)
    requires Finished(script, e.dataField)
    ensures Consumed(script + more, e.dataField) == Consumed(script, e.dataField)
    ensures (script + more)[..Consumed(script, e.dataField)] == script[..Consumed(script, e.dataField)]
    ensures Requests(e, w, script + more) == Requests(e, w, script)
    ensures Extracted(script + more, e.dataField) == Extracted(script, e.dataField)
  {
    var n := Consumed(script, e.dataField);
    var both := script + more;
    assert forall j :: 0 <= j < n ==> both[j] == script[j];
    ConsumedAtFirstStop(both, e.dataField, n);
    assert both[..n] == script[..n];
    RequestsAgree(e, w, both, script, n);
  }

  /** A script of pages that all succeed, every one but the last asking for
      a further page and the last one stopping, yields the in-order
      concatenation of all their record arrays. */
  lemma {:induction false} AllPagesCollected(script: seq<Reply>, dataField: string)
    requires script != []
    requires forall j :: 0 <= j < |script| - 1 ==> Continues(script[j], dataField)
    requires IsSuccess(script[|script| - 1], dataField) && !Continues(script[|script| - 1], dataField)
    ensures Finished(script, dataField)
    ensures Extracted(script, dataField) == Pages(script, dataField)
  {
    ConsumedAtFirstStop(script, dataField, |script|);
    assert script[..|script|] == script;
    SuccessfulPagesCollected(script, dataField);
  }

  /** The record arrays of the given replies, concatenated in order. */
  function Pages(replies: seq<Reply>, dataField: string): (records: seq<Record>)
  {
    if replies == [] then [] else PageRecords(replies[0], dataField) + Pages(replies[1..], dataField)
  }

  lemma {:induction false} SuccessfulPagesCollected(replies: seq<Reply>, dataField: string)
    requires forall j :: 0 <= j < |replies| ==> IsSuccess(replies[j], dataField)
    ensures Collected(replies, dataField) == Pages(replies, dataField)
  {
    if replies != [] {
      var first, rest := replies[0], replies[1..];
      SuccessfulPagesCollected(rest, dataField);
      CollectedAppend([first], rest, dataField);
      assert [first] + rest == replies;
      CollectedOne(first, dataField);
    }
  }

  lemma CollectedOne(r: Reply, dataField: string)
    ensures Collected([r], dataField) == Gained(r, dataField)
  {
    assert [r][..0] == [];
  }

  /** A reply that is not a successful page, after pages that all asked for
      a further page, ends extraction: the requests stop there and the
      result is the records of the earlier pages, in order. */
  lemma FailureKeepsEarlierPages(script: seq<Reply>, dataField: string, k: nat)
    requires k < |script|
    requires forall j :: 0 <= j < k ==> Continues(script[j], dataField)
    requires !IsSuccess(script[k], dataField)
    ensures Consumed(script, dataField) == k + 1
    ensures Finished(script, dataField)
    ensures Extracted(script, dataField) == Pages(script[..k], dataField)
  {
    ConsumedAtFirstStop(script, dataField, k + 1);
    var earlier := script[..k];
    assert script[..k + 1] == earlier + [script[k]];
    FailedReplyAddsNothing(earlier, script[k], dataField);
    SuccessfulPagesCollected(earlier, dataField);
  }

  /** A first reply that fails ends extraction at once with no records. */
  lemma FirstFailureYieldsNothing(script: seq<Reply>, dataField: string)
    requires script != [] && !IsSuccess(script[0], dataField)
    ensures Consumed(script, dataField) == 1
    ensures Finished(script, dataField)
    ensures Extracted(script, dataField) == []
  {
    var first := script[..1];
    assert first[..0] == [] && first[0] == script[0];
    assert Collected(first, dataField) == Collected([], dataField) + Gained(script[0], dataField);
  }
}

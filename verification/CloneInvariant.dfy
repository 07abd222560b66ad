/** The invariant of a clone run over snapshots of its state: memo table, copied
    cells, registered memory spans and budgets. */
module CloneInvariant {
  import opened Wrappers
  import opened CloneGraph
  import opened CloneFaults
  import opened CloneCost

  /** `heap` holds the source and the copies; `open` are the source cells whose
      copies are still being filled. */
  datatype Snapshot = Snapshot(
    seen: map<Loc, Loc>,
    heap: map<Loc, Cell>,
    next: Loc,
    open: set<Loc>,
    spans: seq<Span>,
    nodes: nat,
    bytes: nat)

  /** Holds in every reachable state, also when the run is refused. */
  ghost predicate Budget(s: Snapshot) {
    && s.nodes <= MAX_NODES
    && s.bytes <= MAX_BYTES
    && (forall i, j :: 0 <= i < j < |s.spans| ==> !Overlaps(s.spans[i], s.spans[j]))
    && (forall i :: 0 <= i < |s.spans| ==> 0 < s.spans[i].start < s.spans[i].end < ADDRESS_SPACE)
  }

  ghost predicate SourceKept(g: Graph, s: Snapshot) {
    forall l :: l in g.cells ==> l in s.heap && s.heap[l] == g.cells[l]
  }

  ghost predicate MemoOk(g: Graph, s: Snapshot) {
    && s.seen.Keys <= g.cells.Keys
    && Injective(s.seen)
    && forall l :: l in s.seen ==> s.seen[l] in s.heap && s.seen[l] !in g.cells
  }

  ghost predicate CopiesOk(g: Graph, s: Snapshot)
    requires MemoOk(g, s)
  {
    && s.open <= s.seen.Keys
    && forall l :: l in s.seen && l !in s.open ==> CorrCell(s.seen, g.cells[l], s.heap[s.seen[l]])
  }

  /** The registered spans are those of the cells met, which lie apart. */
  ghost predicate SpansOk(g: Graph, met: set<Loc>, spans: seq<Span>)
    requires LaidOut(g) && met <= g.cells.Keys
  {
    && (forall l :: l in met && SpanOf(g, l).Some? ==> SpanOf(g, l).value in spans)
    && (forall i :: 0 <= i < |spans| ==> SpanOfSome(g, met, spans[i]))
    && (forall a, b :: a in met && b in met && a != b ==> Apart(SpanOf(g, a), SpanOf(g, b)))
  }

  ghost predicate SpanOfSome(g: Graph, met: set<Loc>, span: Span)
    requires LaidOut(g) && met <= g.cells.Keys
  {
    exists l :: l in met && SpanOf(g, l) == Some(span)
  }

  /** Cells met are proper; those already filled hold no fault. */
  ghost predicate MetOk(g: Graph, s: Snapshot)
    requires LaidOut(g) && s.seen.Keys <= g.cells.Keys
  {
    forall l :: l in s.seen ==> RimOk(g, l) && (l !in s.open ==> CleanCell(g, l))
  }

  ghost predicate Inv(g: Graph, s: Snapshot) {
    && LaidOut(g)
    && SourceKept(g, s)
    && MemoOk(g, s)
    && CopiesOk(g, s)
    && SpansOk(g, s.seen.Keys, s.spans)
    && MetOk(g, s)
    && (forall c :: c in s.heap ==> c < s.next)
    && Budget(s)
  }

  /** What a call may do to the state: add memo entries and cells, nothing else. */
  ghost predicate Grows(s: Snapshot, t: Snapshot) {
    && Includes(s.seen, t.seen)
    && (forall c :: c in s.heap ==> c in t.heap && t.heap[c] == s.heap[c])
    && t.open == s.open
    && s.nodes <= t.nodes && s.bytes <= t.bytes && s.next <= t.next
  }

  lemma GrowsTransitive(s: Snapshot, t: Snapshot, u: Snapshot)
    requires Grows(s, t) && Grows(t, u)
    ensures Grows(s, u)
  {
  }

  /** A new span is valid and disjoint from the spans registered so far. */
  ghost predicate SpanAdded(g: Graph, before: seq<Span>, l: Loc, spans: seq<Span>)
    requires LaidOut(g) && l in g.cells
  {
    match SpanOf(g, l)
    case None => spans == before
    case Some(span) =>
      && spans == before + [span]
      && 0 < span.start < span.end < ADDRESS_SPACE
      && forall i :: 0 <= i < |before| ==> !Overlaps(before[i], span)
  }

  lemma SpansStayOk(g: Graph, met: set<Loc>, before: seq<Span>, l: Loc, spans: seq<Span>)
    requires LaidOut(g) && met <= g.cells.Keys && l in g.cells && l !in met
    requires SpansOk(g, met, before) && SpanAdded(g, before, l, spans)
    ensures SpansOk(g, met + {l}, spans)
  {
    var met' := met + {l};
    forall k | k in met' && SpanOf(g, k).Some? ensures SpanOf(g, k).value in spans {
      if k == l { assert spans[|before|] == SpanOf(g, l).value; }
    }
    forall i | 0 <= i < |spans| ensures SpanOfSome(g, met', spans[i]) {
      if i < |before| {
        assert SpanOfSome(g, met, before[i]);
        var k :| k in met && SpanOf(g, k) == Some(before[i]);
        assert k in met';
      } else {
        assert l in met';
      }
    }
    forall k | k in met ensures Apart(SpanOf(g, k), SpanOf(g, l)) && Apart(SpanOf(g, l), SpanOf(g, k)) {
      if SpanOf(g, k).Some? && SpanOf(g, l).Some? {
        var i :| 0 <= i < |before| && before[i] == SpanOf(g, k).value;
      }
    }
  }

  /** Source cell `l` gets a fresh copy, still to be filled. */
  ghost function Opened(s: Snapshot, l: Loc, blank: Cell, spans: seq<Span>, bytes: nat): Snapshot {
    s.(seen := s.seen[l := s.next], heap := s.heap[s.next := blank], next := s.next + 1,
       open := s.open + {l}, spans := spans, bytes := bytes)
  }

  lemma CopiesStayOk(g: Graph, s: Snapshot, t: Snapshot)
    requires MemoOk(g, s) && CopiesOk(g, s) && MemoOk(g, t)
    requires Includes(s.seen, t.seen)
    requires forall c :: c in s.heap ==> c in t.heap && t.heap[c] == s.heap[c]
    requires t.open <= t.seen.Keys && forall l :: l in t.seen && l !in t.open ==> l in s.seen && l !in s.open
    ensures CopiesOk(g, t)
  {
    forall k | k in t.seen && k !in t.open ensures CorrCell(t.seen, g.cells[k], t.heap[t.seen[k]]) {
      CorrCellGrows(s.seen, t.seen, g.cells[k], s.heap[s.seen[k]]);
    }
  }

  lemma MemoOpened(g: Graph, s: Snapshot, l: Loc, blank: Cell, spans: seq<Span>, bytes: nat)
    requires SourceKept(g, s) && MemoOk(g, s) && l in g.cells && l !in s.seen
    requires forall c :: c in s.heap ==> c < s.next
    ensures SourceKept(g, Opened(s, l, blank, spans, bytes)) && MemoOk(g, Opened(s, l, blank, spans, bytes))
  {
  }

  lemma CopiesOpened(g: Graph, s: Snapshot, l: Loc, blank: Cell, spans: seq<Span>, bytes: nat)
    requires SourceKept(g, s) && MemoOk(g, s) && CopiesOk(g, s) && l in g.cells && l !in s.seen
    requires forall c :: c in s.heap ==> c < s.next
    ensures var t := Opened(s, l, blank, spans, bytes);
            SourceKept(g, t) && MemoOk(g, t) && CopiesOk(g, t) && forall c :: c in t.heap ==> c < t.next
  {
    MemoOpened(g, s, l, blank, spans, bytes);
    CopiesStayOk(g, s, Opened(s, l, blank, spans, bytes));
  }

  lemma BudgetOpened(g: Graph, s: Snapshot, l: Loc, spans: seq<Span>, bytes: nat)
    requires LaidOut(g) && l in g.cells && Budget(s)
    requires SpanAdded(g, s.spans, l, spans)
    requires bytes <= MAX_BYTES
    ensures Budget(s.(spans := spans, bytes := bytes))
  {
  }

  lemma InvOpened(g: Graph, s: Snapshot, l: Loc, blank: Cell, spans: seq<Span>, bytes: nat)
    requires Inv(g, s) && l in g.cells && l !in s.seen && RimOk(g, l)
    requires SpanAdded(g, s.spans, l, spans)
    requires s.bytes <= bytes <= MAX_BYTES
    ensures Inv(g, Opened(s, l, blank, spans, bytes))
  {
    var t := Opened(s, l, blank, spans, bytes);
    CopiesOpened(g, s, l, blank, spans, bytes);
    assert SpansOk(g, t.seen.Keys, t.spans) by {
      SpansStayOk(g, s.seen.Keys, s.spans, l, spans);
      assert t.seen.Keys == s.seen.Keys + {l};
    }
    assert Budget(t) by {
      BudgetOpened(g, s, l, spans, bytes);
    }
  }

  /** Registering a span keeps the budgets, whatever is reserved afterwards. */
  lemma BudgetRegistered(g: Graph, s: Snapshot, l: Loc, spans: seq<Span>, bytes: nat)
    requires Inv(g, s) && l in g.cells
    requires SpanAdded(g, s.spans, l, spans)
    requires bytes <= MAX_BYTES
    ensures Budget(s.(spans := spans, bytes := bytes))
  {
    BudgetOpened(g, s, l, spans, bytes);
  }

  lemma InvBudget(g: Graph, s: Snapshot)
    requires Inv(g, s)
    ensures Budget(s) && s.nodes <= MAX_NODES && s.bytes <= MAX_BYTES && LaidOut(g)
    ensures s.seen.Keys <= g.cells.Keys
  {
  }

  ghost function Filled(s: Snapshot, l: Loc, cell: Cell): Snapshot
    requires l in s.seen
  {
    s.(heap := s.heap[s.seen[l] := cell], open := s.open - {l})
  }

  lemma InvFilled(g: Graph, s: Snapshot, l: Loc, cell: Cell)
    requires Inv(g, s) && l in s.open
    requires CorrCell(s.seen, g.cells[l], cell) && CleanCell(g, l)
    ensures Inv(g, Filled(s, l, cell))
  {
    var t := Filled(s, l, cell);
    forall k | k in t.seen && k !in t.open ensures CorrCell(t.seen, g.cells[k], t.heap[t.seen[k]]) {
      if k != l { assert s.seen[k] != s.seen[l]; }
    }
  }

  /** Opening, filling without touching older cells, and closing is growth. */
  lemma GrowsAround(g: Graph, s: Snapshot, l: Loc, blank: Cell, spans: seq<Span>, bytes: nat, t: Snapshot, cell: Cell)
    requires Inv(g, s) && l !in s.seen && s.bytes <= bytes
    requires Grows(Opened(s, l, blank, spans, bytes), t)
    ensures l in t.seen && t.seen[l] == s.next && l in t.open
    ensures Grows(s, Filled(t, l, cell))
  {
    var o := Opened(s, l, blank, spans, bytes);
    assert l in o.seen;
    assert t.open - {l} == s.open;
  }

  // ----- the state and the cost still to come -----

  /** What has been spent together with what the cells not yet met will cost. */
  ghost function Due(g: Graph, reach: set<Loc>, s: Snapshot): Cost
    requires LaidOut(g) && reach <= g.cells.Keys
  {
    Cost(s.nodes, s.bytes).Plus(Rest(g, reach - s.seen.Keys))
  }

  /** Opening a cell moves its contents from the cells still to come to the
      values still to be cloned. */
  lemma DueOpened(g: Graph, reach: set<Loc>, s: Snapshot, l: Loc, blank: Cell, spans: seq<Span>)
    requires LaidOut(g) && reach <= g.cells.Keys && l in reach && l !in s.seen
    ensures Due(g, reach, Opened(s, l, blank, spans, s.bytes + CellBytes(g, l))).Plus(Total(Costs(Contents(g.cells[l])))) ==
            Due(g, reach, s)
    ensures s.bytes + CellBytes(g, l) <= Due(g, reach, s).bytes
  {
    hide Rest, CellBytes, Total;
    var left := reach - s.seen.Keys;
    RestSplit(g, left, l);
    var t := Opened(s, l, blank, spans, s.bytes + CellBytes(g, l));
    assert reach - t.seen.Keys == left - {l};
    assert CellCost(g, l) == Cost(0, CellBytes(g, l)).Plus(Total(Costs(Contents(g.cells[l]))));
  }

  /** Each refusal has the cause it names in the state it leaves. */
  ghost predicate Justified(g: Graph, s: Snapshot, why: Refusal) {
    match why
    case TooDeep(depth) => depth > MAX_DEPTH
    case NodesSpent => s.nodes == MAX_NODES
    case BytesSpent(bytes) => s.bytes + bytes > MAX_BYTES
    case TooManyElements(count) => count > MAX_ELEMENTS
    case BadSpan(start, length) => start == 0 || length == 0 || start + length >= ADDRESS_SPACE
    case OverlappingCell(l) =>
      && LaidOut(g) && l in g.cells && l !in s.seen
      && exists k :: k in s.seen && k in g.cells && !Apart(SpanOf(g, k), SpanOf(g, l))
    case UnknownCurve(id) => !StandardCurve(id)
    case HiddenMemory(v) => SharesMemory(v)
    case UnsupportedKind(v) => v.Opaque?
    case NonzeroAddress(address) => address != 0
  }
}

/**
 The assistant's proposals (`assistant-proposal-store.ts`): three tables written by
 atomic statements and transactions from any number of callers, against a proposal
 as a list of documents with their facts.
 */
module ProposalStore {
  import opened Text
  import opened Sorting

  type Id = nat

  // ------------------------------------------------------------------- facts

  datatype Value = Plain(text: string) | SecurityId(kind: string, value: string)

  type Row = map<string, Value>

  /** A fact as a caller passes it: tagged with its kind, or a bare statement row. */
  datatype Input = Tagged(kind: string, row: Row) | Bare(row: Row)

  datatype Fact = Fact(kind: string, row: Row)

  const WholeKinds: set<string> := {"holding_correction", "holding_creation", "holding_reconcile",
    "debt_early_repayment", "investment_operation", "investment_transfer"}

  const TrashFields: set<string> := {"action", "holdingId", "holdingKind", "name"}

  const AnchorFields: set<string> := {"assetId", "valuationDate", "valueMinor"}

  const BalanceFields: set<string> := {"balanceMinor", "date", "liabilityId", "annualRate"}

  const StatementFields: set<string> := {"currency", "dateKey", "feesMinor", "isin", "kind", "pricePerUnit", "units",
    "occurredAt", "instrument", "name"}

  function Only(row: Row, fields: set<string>): Row {
    map f | f in row && f in fields :: row[f]
  }

  /** The classification of an identifier by its shape. */
  type Classifier = string -> Option<Value>

  /** The row's identifier pair, kept only when its value is of the kind it declares. */
  function SecurityField(row: Row, classify: Classifier): Row {
    if "securityId" in row && row["securityId"].SecurityId? then
      match classify(row["securityId"].value)
      case Some(SecurityId(kind, value)) =>
        if kind == row["securityId"].kind then map["securityId" := SecurityId(kind, value)] else map[]
      case _ => map[]
    else map[]
  }

  /** The row a fact hands in: a tag nobody knows is read as a statement row itself, of which only the tag is a field. */
  function Given(input: Input): Row {
    if input.Tagged? && input.kind !in ReadableKinds then map["kind" := Plain(input.kind)] else input.row
  }

  function NormalizeFact(input: Input, classify: Classifier): Fact {
    if input.Tagged? && input.kind in WholeKinds then Fact(input.kind, input.row)
    else if input.Tagged? && input.kind == "holding_trash_action" then Fact(input.kind, Only(input.row, TrashFields))
    else if input.Tagged? && (input.kind == "property_valuation_anchor" || input.kind == "property_acquisition") then
      Fact(input.kind, Only(input.row, AnchorFields))
    else if input.Tagged? && input.kind == "debt_balance_observation" then Fact(input.kind, Only(input.row, BalanceFields))
    else Fact("statement_operation", StatementRow(Given(input), classify))
  }

  function NormalizeAll(inputs: seq<Input>, classify: Classifier): (facts: seq<Fact>)
    ensures |facts| == |inputs|
    ensures forall i :: 0 <= i < |facts| ==> facts[i] == NormalizeFact(inputs[i], classify)
  {
    if inputs == [] then []
    else NormalizeAll(inputs[..|inputs| - 1], classify) + [NormalizeFact(inputs[|inputs| - 1], classify)]
  }

  /** The kinds a read knows; any other makes it throw. */
  const ReadableKinds: set<string> := {"statement_operation", "debt_balance_observation", "property_valuation_anchor",
    "property_acquisition", "holding_correction", "holding_creation", "holding_trash_action", "holding_reconcile",
    "investment_operation", "investment_transfer", "debt_early_repayment"}

  /** Whatever is handed in, what is stored can be read back. */
  lemma StoredKindsAreRead(input: Input, classify: Classifier)
    ensures NormalizeFact(input, classify).kind in ReadableKinds
    ensures input.Tagged? && input.kind in ReadableKinds ==> NormalizeFact(input, classify).kind == input.kind
  {
  }

  /** The fields of each kind that is not kept whole; the identifier pair of a statement row goes by its own rule. */
  function OwnFields(kind: string): set<string> {
    if kind == "holding_trash_action" then {"action", "holdingId", "holdingKind", "name"}
    else if kind == "property_valuation_anchor" || kind == "property_acquisition" then {"assetId", "valuationDate", "valueMinor"}
    else if kind == "debt_balance_observation" then {"balanceMinor", "date", "liabilityId", "annualRate"}
    else {"currency", "dateKey", "feesMinor", "isin", "kind", "pricePerUnit", "units", "occurredAt", "instrument", "name"}
  }

  predicate KeptWhole(kind: string) {
    || kind == "holding_correction" || kind == "holding_creation" || kind == "holding_reconcile"
    || kind == "debt_early_repayment" || kind == "investment_operation" || kind == "investment_transfer"
  }

  /** The pair handed in classifies as the kind it declares. */
  predicate PairStands(row: Row, classify: Classifier) {
    && "securityId" in row && row["securityId"].SecurityId?
    && classify(row["securityId"].value).Some? && classify(row["securityId"].value).value.SecurityId?
    && classify(row["securityId"].value).value.kind == row["securityId"].kind
  }

  /** What is stored of a fact: all of a whole kind's row; of another's exactly its own fields, unchanged, and the pair if it stands. */
  ghost predicate Keeps(input: Input, fact: Fact, classify: Classifier) {
    && fact.kind == (if input.Tagged? && input.kind in ReadableKinds then input.kind else "statement_operation")
    && if KeptWhole(fact.kind) then fact.row == input.row
       else
         && (forall f | f != "securityId" :: f in fact.row <==> f in Given(input) && f in OwnFields(fact.kind))
         && (forall f | f in fact.row && f != "securityId" :: fact.row[f] == Given(input)[f])
         && ("securityId" in fact.row <==> fact.kind == "statement_operation" && PairStands(Given(input), classify))
         && ("securityId" in fact.row ==> Some(fact.row["securityId"]) == classify(Given(input)["securityId"].value))
  }

  lemma OnlyIs(row: Row, fields: set<string>)
    ensures forall f :: f in Only(row, fields) <==> f in row && f in fields
    ensures forall f | f in Only(row, fields) :: Only(row, fields)[f] == row[f]
  {
  }

  lemma PairIs(row: Row, classify: Classifier)
    ensures forall f | f in SecurityField(row, classify) :: f == "securityId"
    ensures "securityId" in SecurityField(row, classify) <==> PairStands(row, classify)
    ensures "securityId" in SecurityField(row, classify) ==>
      Some(SecurityField(row, classify)["securityId"]) == classify(row["securityId"].value)
  {
  }

  lemma StatementKeeps(row: Row, classify: Classifier)
    ensures var kept := StatementRow(row, classify);
      && (forall f | f != "securityId" :: f in kept <==> f in row && f in StatementFields)
      && (forall f | f in kept && f != "securityId" :: kept[f] == row[f])
      && ("securityId" in kept <==> PairStands(row, classify))
      && ("securityId" in kept ==> Some(kept["securityId"]) == classify(row["securityId"].value))
  {
    hide Only, SecurityField, PairStands;
    OnlyIs(row, StatementFields);
    PairIs(row, classify);
  }

  /** The kind a fact is stored under. */
  function KindOf(input: Input): string {
    if input.Tagged? && input.kind in ReadableKinds then input.kind else "statement_operation"
  }

  lemma NormalizedIs(input: Input, classify: Classifier)
    ensures var fact, kind := NormalizeFact(input, classify), KindOf(input);
      && fact.kind == kind
      && (KeptWhole(kind) ==> fact.row == input.row)
      && (!KeptWhole(kind) && kind != "statement_operation" ==>
            fact.row == Only(input.row, OwnFields(kind)) && Given(input) == input.row)
      && (kind == "statement_operation" ==> !KeptWhole(kind) && fact.row == StatementRow(Given(input), classify))
  {
    hide Only, StatementRow;
  }

  lemma StatementFieldsAre()
    ensures OwnFields("statement_operation") == StatementFields && "securityId" !in StatementFields
  {
  }

  lemma NoPairField(kind: string)
    ensures "securityId" !in OwnFields(kind)
  {
  }

  lemma FactKeeps(input: Input, classify: Classifier)
    ensures Keeps(input, NormalizeFact(input, classify), classify)
  {
    hide Only, StatementRow, PairStands, NormalizeFact, OwnFields, KeptWhole, Given;
    var kind := KindOf(input);
    NormalizedIs(input, classify);
    StatementFieldsAre();
    NoPairField(kind);
    OnlyIs(input.row, OwnFields(kind));
    StatementKeeps(Given(input), classify);
  }

  /** Classifying what a classification names gives it again. */
  ghost predicate Stable(classify: Classifier) {
    forall v :: classify(v).Some? ==>
      classify(v).value.SecurityId? && classify(classify(v).value.value) == classify(v)
  }

  /** A stored fact, handed in again, is stored unchanged. */
  lemma NormalizeIdempotent(input: Input, classify: Classifier)
    requires Stable(classify)
    ensures var fact := NormalizeFact(input, classify);
            NormalizeFact(Tagged(fact.kind, fact.row), classify) == fact
  {
    hide Only, SecurityField;
    OnlyTwice(input.row, TrashFields);
    OnlyTwice(input.row, AnchorFields);
    OnlyTwice(input.row, BalanceFields);
    StatementTwice(Given(input), classify);
  }

  lemma OnlyTwice(row: Row, fields: set<string>)
    ensures Only(Only(row, fields), fields) == Only(row, fields)
  {
  }

  function StatementRow(row: Row, classify: Classifier): Row {
    Only(row, StatementFields) + SecurityField(row, classify)
  }

  lemma StatementTwice(row: Row, classify: Classifier)
    requires Stable(classify)
    ensures StatementRow(StatementRow(row, classify), classify) == StatementRow(row, classify)
  {
    hide Only, SecurityField;
    PairTwice(row, classify);
    OnlyOfSum(row, classify);
  }

  lemma PairTwice(row: Row, classify: Classifier)
    requires Stable(classify)
    ensures SecurityField(StatementRow(row, classify), classify) == SecurityField(row, classify)
  {
    assert "securityId" !in Only(row, StatementFields);
  }

  lemma OnlyOfSum(row: Row, classify: Classifier)
    ensures Only(StatementRow(row, classify), StatementFields) == Only(row, StatementFields)
  {
    assert SecurityField(row, classify).Keys <= {"securityId"};
  }

  // ------------------------------------------------------------------- tables

  datatype Status = Draft | Applied | Discarded

  datatype DocumentRef = DocumentRef(name: string, sha256: string, provenance: string)

  datatype ProposalRow = ProposalRow(kind: string, status: Status, createdAt: int, updatedAt: int, resolvedAt: Option<int>)

  datatype DocumentRow = DocumentRow(id: Id, proposalId: Id, ref: DocumentRef, sequence: int)

  datatype FactRow = FactRow(documentId: Id, ordinal: nat, fact: Fact)

  /** The three tables, in insertion order, and the next id `newId` gives. */
  datatype Tables = Tables(
    proposals: map<Id, ProposalRow>, documents: seq<DocumentRow>, facts: seq<FactRow>, next: Id)

  const ProposalKinds: set<string> := {"statement_import", "balance_history_import", "property_valuation_anchor",
    "property_acquisition", "mixed_document_import", "correction", "holding_creation", "holding_removal",
    "holding_restoration", "reconcile", "investment_operation", "investment_transfer", "early_repayment"}

  predicate IsHexDigit(c: char) {
    IsDigit(c) || 'a' <= c <= 'f' || 'A' <= c <= 'F'
  }

  predicate LegalDocument(ref: DocumentRef) {
    && Trim(ref.name) != ""
    && |ref.sha256| == 64 && (forall c | c in ref.sha256 :: IsHexDigit(c))
    && (ref.provenance == "agent" || ref.provenance == "user")
  }

  function LowerHex(s: string): string {
    if s == "" then ""
    else [if 'A' <= s[0] <= 'F' then (s[0] as int + 32) as char else s[0]] + LowerHex(s[1..])
  }

  datatype Op =
    | Create(kind: string, now: int)
    | Append(id: Id, ref: DocumentRef, inputs: seq<Input>, now: int)
    | Resolve(id: Id, status: Status, now: int)

  predicate IsDraft(t: Tables, id: Id) {
    id in t.proposals && t.proposals[id].status == Draft
  }

  /** The operation has its effect; otherwise it throws and leaves the tables alone. */
  predicate Succeeds(t: Tables, op: Op) {
    match op
    case Create(kind, _) => kind in ProposalKinds
    case Append(id, ref, _, _) => LegalDocument(ref) && IsDraft(t, id)
    case Resolve(id, status, _) => IsDraft(t, id) && status != Draft
  }

  function OfProposal(rows: seq<DocumentRow>, id: Id): seq<DocumentRow> {
    Filter(rows, (r: DocumentRow) => r.proposalId == id)
  }

  /** `max(sequence)`, or −1 with no row. */
  function MaxSequence(rows: seq<DocumentRow>): int {
    if rows == [] then -1
    else
      var before := MaxSequence(rows[..|rows| - 1]);
      var last := rows[|rows| - 1].sequence;
      if last > before then last else before
  }

  function FactRows(documentId: Id, facts: seq<Fact>): (rows: seq<FactRow>)
    ensures |rows| == |facts|
    ensures forall i :: 0 <= i < |rows| ==> rows[i] == FactRow(documentId, i, facts[i])
  {
    seq(|facts|, i requires 0 <= i < |facts| => FactRow(documentId, i, facts[i]))
  }

  function Apply(t: Tables, op: Op, classify: Classifier): Tables {
    if !Succeeds(t, op) then t
    else
      match op
      case Create(kind, now) =>
        t.(proposals := t.proposals[t.next := ProposalRow(kind, Draft, now, now, None)], next := t.next + 1)
      case Append(id, ref, inputs, now) =>
        var document := DocumentRow(t.next, id, ref.(sha256 := LowerHex(ref.sha256)),
                                    MaxSequence(OfProposal(t.documents, id)) + 1);
        t.(documents := t.documents + [document],
           facts := t.facts + FactRows(t.next, NormalizeAll(inputs, classify)),
           proposals := t.proposals[id := t.proposals[id].(updatedAt := now)],
           next := t.next + 1)
      case Resolve(id, status, now) =>
        t.(proposals := t.proposals[id := t.proposals[id].(status := status, updatedAt := now, resolvedAt := Some(now))])
  }

  function Run(t: Tables, ops: seq<Op>, classify: Classifier): Tables {
    if ops == [] then t else Apply(Run(t, ops[..|ops| - 1], classify), ops[|ops| - 1], classify)
  }

  // ------------------------------------------------------------------ reading

  datatype Document = Document(ref: DocumentRef, facts: seq<Fact>)

  datatype Proposal = Proposal(kind: string, status: Status, documents: seq<Document>)

  function BySequence(): (DocumentRow, DocumentRow) -> bool {
    (a: DocumentRow, b: DocumentRow) => a.sequence <= b.sequence
  }

  function ByOrdinal(): (FactRow, FactRow) -> bool {
    (a: FactRow, b: FactRow) => a.ordinal <= b.ordinal
  }

  function FactsOf(facts: seq<FactRow>): (r: seq<Fact>)
    ensures |r| == |facts|
    ensures forall i :: 0 <= i < |r| ==> r[i] == facts[i].fact
  {
    seq(|facts|, i requires 0 <= i < |facts| => facts[i].fact)
  }

  function OfDocument(rows: seq<FactRow>, id: Id): seq<FactRow> {
    Filter(rows, (r: FactRow) => r.documentId == id)
  }

  /** The facts of a document: `where documentId = id order by ordinal`. */
  function ReadFacts(t: Tables, documentId: Id): seq<Fact> {
    FactsOf(Sort(OfDocument(t.facts, documentId), ByOrdinal()))
  }

  /** The documents of a proposal: `where proposalId = id order by sequence`. */
  function ReadRows(t: Tables, id: Id): seq<DocumentRow> {
    Sort(OfProposal(t.documents, id), BySequence())
  }

  /** Each document row with its facts, which may be read from later tables than the rows were. */
  function ReadDocuments(rows: seq<DocumentRow>, later: seq<Tables>): seq<Document>
    requires |later| == |rows|
  {
    if rows == [] then []
    else
      var n := |rows| - 1;
      ReadDocuments(rows[..n], later[..n]) + [Document(rows[n].ref, ReadFacts(later[n], rows[n].id))]
  }

  // ---------------------------------------------------------- the store as written

  class Store {
    var proposals: map<Id, ProposalRow>
    var documents: seq<DocumentRow>
    var facts: seq<FactRow>
    var next: Id
    const classify: Classifier

    function Now(): Tables
      reads this
    {
      Tables(proposals, documents, facts, next)
    }

    constructor (classify: Classifier)
      ensures Now() == Tables(map[], [], [], 0) && this.classify == classify
    {
      proposals, documents, facts, next := map[], [], [], 0;
      this.classify := classify;
    }

    method NewId() returns (id: Id)
      modifies this`next
      ensures id == old(next) && next == old(next) + 1
    {
      id := next;
      next := next + 1;
    }

    method CreateProposal(kind: string, now: int) returns (id: Option<Id>)
      modifies this
      ensures Now() == Apply(old(Now()), Create(kind, now), classify)
      ensures id == if Succeeds(old(Now()), Create(kind, now)) then Some(old(next)) else None
    {
      if kind !in ProposalKinds {
        return None;
      }
      var minted := NewId();
      proposals := proposals[minted := ProposalRow(kind, Draft, now, now, None)];
      id := Some(minted);
    }

    method AppendDocument(id: Id, ref: DocumentRef, inputs: seq<Input>, now: int) returns (done: bool)
      modifies this
      ensures Now() == Apply(old(Now()), Append(id, ref, inputs, now), classify)
      ensures done == Succeeds(old(Now()), Append(id, ref, inputs, now))
    {
      hide LegalDocument, MaxSequence, OfProposal, NormalizeAll, LowerHex;
      if !LegalDocument(ref) || id !in proposals || proposals[id].status != Draft {
        return false;
      }
      var sequence := MaxSequence(OfProposal(documents, id)) + 1;
      var documentId := NewId();
      documents := documents + [DocumentRow(documentId, id, ref.(sha256 := LowerHex(ref.sha256)), sequence)];
      InsertFacts(documentId, NormalizeAll(inputs, classify));
      proposals := proposals[id := proposals[id].(updatedAt := now)];
      done := true;
    }

    method InsertFacts(documentId: Id, normalized: seq<Fact>)
      modifies this`facts
      ensures facts == old(facts) + FactRows(documentId, normalized)
    {
      ghost var rows := FactRows(documentId, normalized);
      for ordinal := 0 to |normalized|
        invariant facts == old(facts) + rows[..ordinal]
      {
        facts := facts + [FactRow(documentId, ordinal, normalized[ordinal])];
        assert rows[..ordinal + 1] == rows[..ordinal] + [rows[ordinal]];
      }
      assert rows[..|normalized|] == rows;
    }

    /** One guarded update: it applies to a draft, or to nothing. */
    method ResolveProposal(id: Id, status: Status, now: int) returns (done: bool)
      requires status != Draft
      modifies this`proposals
      ensures Now() == Apply(old(Now()), Resolve(id, status, now), classify)
      ensures done == Succeeds(old(Now()), Resolve(id, status, now))
    {
      done := id in proposals && proposals[id].status == Draft;
      if done {
        proposals := proposals[id := proposals[id].(status := status, updatedAt := now, resolvedAt := Some(now))];
      }
    }

    method ReadProposal(id: Id) returns (proposal: Option<Proposal>)
      ensures proposal == if id !in proposals then None
                          else Some(Proposal(proposals[id].kind, proposals[id].status,
                                             ReadDocuments(ReadRows(Now(), id), Same(Now(), |ReadRows(Now(), id)|))))
    {
      if id !in proposals {
        return None;
      }
      var rows := ReadRows(Now(), id);
      ghost var later := Same(Now(), |rows|);
      var result: seq<Document> := [];
      for i := 0 to |rows|
        invariant result == ReadDocuments(rows[..i], later[..i])
      {
        assert rows[..i + 1][..i] == rows[..i] && later[..i + 1][..i] == later[..i];
        result := result + [Document(rows[i].ref, ReadFacts(Now(), rows[i].id))];
      }
      assert rows[..|rows|] == rows && later[..|rows|] == later;
      proposal := Some(Proposal(proposals[id].kind, proposals[id].status, result));
    }
  }

  function Same(t: Tables, n: nat): (s: seq<Tables>)
    ensures |s| == n && forall i :: 0 <= i < n ==> s[i] == t
  {
    seq(n, _ => t)
  }

  // -------------------------------------------------------- proposals as values

  /** What the tables stand for: each proposal with its documents in the order they were appended. */
  type Book = map<Id, Proposal>

  function Meaning(book: Book, next: Id, op: Op, done: bool, classify: Classifier): Book {
    if !done then book
    else
      match op
      case Create(kind, _) => book[next := Proposal(kind, Draft, [])]
      case Append(id, ref, inputs, _) =>
        if id !in book then book
        else
          var document := Document(ref.(sha256 := LowerHex(ref.sha256)), NormalizeAll(inputs, classify));
          book[id := book[id].(documents := book[id].documents + [document])]
      case Resolve(id, status, _) => if id !in book then book else book[id := book[id].(status := status)]
  }

  /** The book of a run from empty tables, each operation taking effect when it succeeds. */
  function RunBook(ops: seq<Op>, classify: Classifier): Book {
    if ops == [] then map[]
    else
      var n := |ops| - 1;
      var t := Run(Empty, ops[..n], classify);
      Meaning(RunBook(ops[..n], classify), t.next, ops[n], Succeeds(t, ops[n]), classify)
  }

  const Empty := Tables(map[], [], [], 0)

  /** A proposal's document rows are numbered 0, 1, 2, … in insertion order. */
  predicate Numbered(rows: seq<DocumentRow>) {
    forall i :: 0 <= i < |rows| ==> rows[i].sequence == i
  }

  /** A document's fact rows are those of the facts, in order. */
  predicate HoldsFacts(t: Tables, documentId: Id, facts: seq<Fact>) {
    OfDocument(t.facts, documentId) == FactRows(documentId, facts)
  }

  predicate HoldsDocuments(t: Tables, id: Id, documents: seq<Document>) {
    var rows := OfProposal(t.documents, id);
    && |rows| == |documents| && Numbered(rows)
    && forall i :: 0 <= i < |rows| ==>
         rows[i].ref == documents[i].ref && rows[i].id < t.next && HoldsFacts(t, rows[i].id, documents[i].facts)
  }

  /** The tables stand for the book. */
  ghost predicate StandsFor(t: Tables, book: Book) {
    && t.proposals.Keys == book.Keys
    && (forall id | id in book :: id < t.next)
    && (forall r | r in t.documents :: r.proposalId in book)
    && (forall r | r in t.facts :: r.documentId < t.next)
    && (forall id | id in book ::
          && t.proposals[id].kind == book[id].kind && t.proposals[id].status == book[id].status
          && HoldsDocuments(t, id, book[id].documents))
  }

  /** New fact rows are all of their own document. */
  lemma FactsAppended(facts: seq<FactRow>, documentId: Id, more: seq<Fact>, other: Id)
    requires forall r | r in facts :: r.documentId < documentId
    ensures var all := facts + FactRows(documentId, more);
            && OfDocument(all, documentId) == FactRows(documentId, more)
            && (other != documentId ==> OfDocument(all, other) == OfDocument(facts, other))
  {
    hide Filter;
    var keep, keepOther := (r: FactRow) => r.documentId == documentId, (r: FactRow) => r.documentId == other;
    FilterAppend(facts, FactRows(documentId, more), keep);
    FilterAppend(facts, FactRows(documentId, more), keepOther);
    FilterAllOrNone(facts, keep);
    FilterAllOrNone(FactRows(documentId, more), keep);
    FilterAllOrNone(FactRows(documentId, more), keepOther);
    assert OfDocument(facts, documentId) == [] by {
      assert Filter(facts, keep) == [];
    }
  }

  lemma DocumentAppended(documents: seq<DocumentRow>, row: DocumentRow, id: Id)
    ensures OfProposal(documents + [row], id)
         == OfProposal(documents, id) + if row.proposalId == id then [row] else []
  {
    hide Filter;
    var keep := (r: DocumentRow) => r.proposalId == id;
    FilterAppend(documents, [row], keep);
    FilterAllOrNone([row], keep);
  }

  lemma {:induction false} MaxOfNumbered(rows: seq<DocumentRow>)
    requires Numbered(rows)
    ensures MaxSequence(rows) == |rows| - 1
  {
    if rows != [] {
      MaxOfNumbered(rows[..|rows| - 1]);
    }
  }

  // -------------------------------------------------------------- refinement

  lemma AppendStands(t: Tables, book: Book, op: Op, classify: Classifier)
    requires StandsFor(t, book) && op.Append? && Succeeds(t, op)
    ensures StandsFor(Apply(t, op, classify), Meaning(book, t.next, op, true, classify))
  {
    hide OfProposal, OfDocument, LegalDocument, Numbered;
    var after := Apply(t, op, classify);
    var book' := Meaning(book, t.next, op, true, classify);
    var row := after.documents[|t.documents|];
    forall id | id in book' ensures HoldsDocuments(after, id, book'[id].documents) {
      DocumentAppended(t.documents, row, id);
      NumberedGrows(t, id, book[id].documents, row);
      var rows := OfProposal(after.documents, id);
      forall i | 0 <= i < |rows|
        ensures rows[i].ref == book'[id].documents[i].ref && rows[i].id < after.next
        ensures HoldsFacts(after, rows[i].id, book'[id].documents[i].facts)
      {
        FactsAppended(t.facts, t.next, NormalizeAll(op.inputs, classify), rows[i].id);
      }
    }
  }

  lemma NumberedGrows(t: Tables, id: Id, documents: seq<Document>, row: DocumentRow)
    requires HoldsDocuments(t, id, documents)
    requires row.proposalId == id ==> row.sequence == MaxSequence(OfProposal(t.documents, id)) + 1
    ensures Numbered(OfProposal(t.documents, id) + if row.proposalId == id then [row] else [])
  {
    MaxOfNumbered(OfProposal(t.documents, id));
  }

  lemma NoRows(t: Tables, id: Id)
    requires forall r | r in t.documents :: r.proposalId != id
    ensures OfProposal(t.documents, id) == []
  {
    FilterAllOrNone(t.documents, (r: DocumentRow) => r.proposalId == id);
  }

  lemma ApplyStands(t: Tables, book: Book, op: Op, classify: Classifier)
    requires StandsFor(t, book)
    ensures StandsFor(Apply(t, op, classify), Meaning(book, t.next, op, Succeeds(t, op), classify))
  {
    hide OfProposal, OfDocument, LegalDocument;
    if op.Append? && Succeeds(t, op) {
      AppendStands(t, book, op, classify);
    } else if op.Create? && Succeeds(t, op) {
      NoRows(t, t.next);
    }
  }

  lemma {:induction false} RunStands(ops: seq<Op>, classify: Classifier)
    ensures StandsFor(Run(Empty, ops, classify), RunBook(ops, classify))
  {
    hide Apply, Meaning, Succeeds;
    if ops != [] {
      hide StandsFor;
      RunStands(ops[..|ops| - 1], classify);
      ApplyStands(Run(Empty, ops[..|ops| - 1], classify), RunBook(ops[..|ops| - 1], classify), ops[|ops| - 1], classify);
    }
  }

  /** Facts, once written with their document, never change. */
  lemma FactsStay(t: Tables, book: Book, op: Op, classify: Classifier, documentId: Id, facts: seq<Fact>)
    requires StandsFor(t, book) && documentId < t.next && HoldsFacts(t, documentId, facts)
    ensures HoldsFacts(Apply(t, op, classify), documentId, facts) && documentId < Apply(t, op, classify).next
  {
    hide OfDocument, LegalDocument, HoldsDocuments;
    if op.Append? && Succeeds(t, op) {
      FactsAppended(t.facts, t.next, NormalizeAll(op.inputs, classify), documentId);
    }
  }

  /** The tables after the first `k` operations of a run. */
  function At(ops: seq<Op>, k: nat, classify: Classifier): Tables
    requires k <= |ops|
  {
    Run(Empty, ops[..k], classify)
  }

  function BookAt(ops: seq<Op>, k: nat, classify: Classifier): Book
    requires k <= |ops|
  {
    RunBook(ops[..k], classify)
  }

  lemma {:induction false} FactsStayOverRuns(
    ops: seq<Op>, j: nat, k: nat, classify: Classifier, documentId: Id, facts: seq<Fact>)
    requires j <= k <= |ops|
    requires documentId < At(ops, j, classify).next && HoldsFacts(At(ops, j, classify), documentId, facts)
    ensures documentId < At(ops, k, classify).next && HoldsFacts(At(ops, k, classify), documentId, facts)
    decreases k
  {
    hide HoldsFacts, Apply;
    if j < k {
      FactsStayOverRuns(ops, j, k - 1, classify, documentId, facts);
      RunStands(ops[..k - 1], classify);
      assert ops[..k][..k - 1] == ops[..k - 1];
      FactsStay(At(ops, k - 1, classify), BookAt(ops, k - 1, classify), ops[k - 1], classify, documentId, facts);
    }
  }

  lemma FactsRead(t: Tables, documentId: Id, facts: seq<Fact>)
    requires HoldsFacts(t, documentId, facts)
    ensures ReadFacts(t, documentId) == facts
  {
    hide OfDocument, Sort;
    SortSorted(FactRows(documentId, facts), ByOrdinal());
  }

  lemma RowsRead(t: Tables, id: Id, documents: seq<Document>)
    requires HoldsDocuments(t, id, documents)
    ensures ReadRows(t, id) == OfProposal(t.documents, id)
  {
    hide OfProposal, Sort, HoldsFacts;
    SortSorted(OfProposal(t.documents, id), BySequence());
  }

  lemma {:induction false} DocumentsRead(rows: seq<DocumentRow>, later: seq<Tables>, documents: seq<Document>)
    requires |later| == |rows| == |documents|
    requires forall i :: 0 <= i < |rows| ==>
               rows[i].ref == documents[i].ref && HoldsFacts(later[i], rows[i].id, documents[i].facts)
    ensures ReadDocuments(rows, later) == documents
  {
    hide HoldsFacts, ReadFacts;
    if rows != [] {
      var n := |rows| - 1;
      DocumentsRead(rows[..n], later[..n], documents[..n]);
      FactsRead(later[n], rows[n].id, documents[n].facts);
      assert documents == documents[..n] + [documents[n]];
    }
  }

  /**
   A read is several statements, and other callers may write between them: the
   documents are those of the moment the document rows were read, each with all its
   facts, in append order, whenever those facts were fetched after.
   */
  lemma TornRead(ops: seq<Op>, rowsAt: nat, factsAt: seq<nat>, classify: Classifier, id: Id)
    requires rowsAt <= |ops| && id in BookAt(ops, rowsAt, classify)
    requires |factsAt| == |ReadRows(At(ops, rowsAt, classify), id)|
    requires forall i :: 0 <= i < |factsAt| ==> rowsAt <= factsAt[i] <= |ops|
    ensures var rows := ReadRows(At(ops, rowsAt, classify), id);
            ReadDocuments(rows, seq(|factsAt|, i requires 0 <= i < |factsAt| => At(ops, factsAt[i], classify)))
              == BookAt(ops, rowsAt, classify)[id].documents
  {
    hide OfProposal, ReadRows, Run, RunBook, HoldsFacts;
    var t, book := At(ops, rowsAt, classify), BookAt(ops, rowsAt, classify);
    RunStands(ops[..rowsAt], classify);
    var documents := book[id].documents;
    RowsRead(t, id, documents);
    var rows := ReadRows(t, id);
    var later := seq(|factsAt|, i requires 0 <= i < |factsAt| => At(ops, factsAt[i], classify));
    forall i | 0 <= i < |rows| ensures HoldsFacts(later[i], rows[i].id, documents[i].facts) {
      FactsStayOverRuns(ops, rowsAt, factsAt[i], classify, rows[i].id, documents[i].facts);
    }
    DocumentsRead(rows, later, documents);
  }

  /** Sequences are exactly 0, 1, …, n − 1, over every interleaving of callers. */
  lemma SequencesOverRuns(ops: seq<Op>, classify: Classifier, id: Id)
    requires id in RunBook(ops, classify)
    ensures var rows := ReadRows(Run(Empty, ops, classify), id);
            |rows| == |RunBook(ops, classify)[id].documents| && forall i :: 0 <= i < |rows| ==> rows[i].sequence == i
  {
    hide OfProposal, ReadRows, Run, RunBook, HoldsFacts;
    RunStands(ops, classify);
    RowsRead(Run(Empty, ops, classify), id, RunBook(ops, classify)[id].documents);
  }

  // ------------------------------------------------------- what a read says

  /** A document is legal when its name has a visible character, its hash is 64 hexadecimal digits and its provenance one of two. */
  lemma LegalDocumentExactly(ref: DocumentRef)
    ensures LegalDocument(ref) <==>
      && (exists i :: 0 <= i < |ref.name| && !IsBlank(ref.name[i]))
      && |ref.sha256| == 64
      && (forall i :: 0 <= i < 64 ==>
            '0' <= ref.sha256[i] <= '9' || 'a' <= ref.sha256[i] <= 'f' || 'A' <= ref.sha256[i] <= 'F')
      && ref.provenance in {"agent", "user"}
  {
    TrimEmpty(ref.name);
    assert (forall c | c in ref.sha256 :: IsHexDigit(c)) <==> forall i :: 0 <= i < |ref.sha256| ==> IsHexDigit(ref.sha256[i]);
  }

  /** The stored hash is the one handed in, its letters lower. */
  lemma {:induction false} LowerHexIs(s: string)
    ensures |LowerHex(s)| == |s|
    ensures forall i :: 0 <= i < |s| ==>
      LowerHex(s)[i] == if 'A' <= s[i] <= 'F' then "abcdef"[s[i] as int - 'A' as int] else s[i]
  {
    if s != "" {
      LowerHexIs(s[1..]);
    }
  }

  lemma {:induction false} DocumentsGrow(ops: seq<Op>, j: nat, k: nat, classify: Classifier, id: Id)
    requires j <= k <= |ops| && id in BookAt(ops, j, classify)
    ensures id in BookAt(ops, k, classify) && BookAt(ops, j, classify)[id].documents <= BookAt(ops, k, classify)[id].documents
    decreases k
  {
    hide Run, LegalDocument, NormalizeAll, LowerHex;
    if j < k {
      DocumentsGrow(ops, j, k - 1, classify, id);
      RunStands(ops[..k - 1], classify);
      assert ops[..k][..k - 1] == ops[..k - 1];
    }
  }

  /** A document that was appended: its name and provenance, its hash in lower case, and each of its facts kept as its kind is. */
  ghost predicate AppendedAs(document: Document, ref: DocumentRef, inputs: seq<Input>, classify: Classifier) {
    && document.ref == DocumentRef(ref.name, LowerHex(ref.sha256), ref.provenance)
    && |document.facts| == |inputs|
    && forall i :: 0 <= i < |inputs| ==> Keeps(inputs[i], document.facts[i], classify)
  }

  lemma AppendedInBook(ops: seq<Op>, k: nat, classify: Classifier)
    requires k < |ops| && ops[k].Append? && Succeeds(At(ops, k, classify), ops[k])
    ensures var op := ops[k];
      && op.id in BookAt(ops, k, classify) && op.id in BookAt(ops, k + 1, classify)
      && var before, after := BookAt(ops, k, classify)[op.id].documents, BookAt(ops, k + 1, classify)[op.id].documents;
         |after| == |before| + 1 && after[..|before|] == before && AppendedAs(after[|before|], op.ref, op.inputs, classify)
  {
    hide Run, LegalDocument, Keeps, NormalizeFact, LowerHex;
    var op := ops[k];
    assert ops[..k + 1][..k] == ops[..k];
    RunStands(ops[..k], classify);
    forall i | 0 <= i < |op.inputs| ensures Keeps(op.inputs[i], NormalizeAll(op.inputs, classify)[i], classify) {
      FactKeeps(op.inputs[i], classify);
    }
  }

  /**
   What a read at any later moment returns of an append, however torn: its document
   in its place, with every fact of it, field by field, as it was handed in.
   */
  lemma AppendedIsRead(ops: seq<Op>, k: nat, rowsAt: nat, factsAt: seq<nat>, classify: Classifier)
    requires k < rowsAt <= |ops| && ops[k].Append? && Succeeds(At(ops, k, classify), ops[k])
    requires |factsAt| == |ReadRows(At(ops, rowsAt, classify), ops[k].id)|
    requires forall i :: 0 <= i < |factsAt| ==> rowsAt <= factsAt[i] <= |ops|
    ensures ops[k].id in BookAt(ops, k, classify)
    ensures var place := |BookAt(ops, k, classify)[ops[k].id].documents|;
      var read := ReadDocuments(ReadRows(At(ops, rowsAt, classify), ops[k].id),
        seq(|factsAt|, i requires 0 <= i < |factsAt| => At(ops, factsAt[i], classify)));
      place < |read| && AppendedAs(read[place], ops[k].ref, ops[k].inputs, classify)
  {
    hide At, BookAt, ReadRows, ReadDocuments, AppendedAs, Succeeds;
    AppendedInBook(ops, k, classify);
    DocumentsGrow(ops, k + 1, rowsAt, classify, ops[k].id);
    TornRead(ops, rowsAt, factsAt, classify, ops[k].id);
  }

  /** The times a proposal carries. */
  datatype Times = Times(created: int, updated: int, resolved: Option<int>)

  /** What the operations that took effect on a proposal say its times are. */
  function TimesOf(ops: seq<Op>, id: Id, classify: Classifier): Option<Times> {
    if ops == [] then None
    else
      var n := |ops| - 1;
      var before, times := Run(Empty, ops[..n], classify), TimesOf(ops[..n], id, classify);
      if !Succeeds(before, ops[n]) then times
      else
        match ops[n]
        case Create(_, now) => if before.next == id then Some(Times(now, now, None)) else times
        case Append(i, _, _, now) => if i == id && times.Some? then Some(times.value.(updated := now)) else times
        case Resolve(i, _, now) =>
          if i == id && times.Some? then Some(times.value.(updated := now, resolved := Some(now))) else times
  }

  /** Created when it was, updated by the last operation that took effect on it, resolved when that was the resolution. */
  lemma {:induction false} TimesOverRuns(ops: seq<Op>, id: Id, classify: Classifier)
    ensures var t := Run(Empty, ops, classify);
      TimesOf(ops, id, classify)
      == (if id !in t.proposals then None
          else Some(Times(t.proposals[id].createdAt, t.proposals[id].updatedAt, t.proposals[id].resolvedAt)))
    ensures id in Run(Empty, ops, classify).proposals ==> id < Run(Empty, ops, classify).next
  {
    hide LegalDocument, NormalizeAll, OfProposal, MaxSequence, FactRows;
    if ops != [] {
      TimesOverRuns(ops[..|ops| - 1], id, classify);
    }
  }

  // ------------------------------------------------------------------ lifecycle

  /** A resolved proposal is resolved for good: neither its status nor its documents change again. */
  lemma {:induction false} ResolvedForGood(ops: seq<Op>, j: nat, k: nat, classify: Classifier, id: Id)
    requires j <= k <= |ops|
    requires id in BookAt(ops, j, classify) && BookAt(ops, j, classify)[id].status != Draft
    ensures id in BookAt(ops, k, classify) && BookAt(ops, k, classify)[id] == BookAt(ops, j, classify)[id]
    decreases k
  {
    hide Run, LegalDocument, NormalizeAll;
    if j < k {
      ResolvedForGood(ops, j, k - 1, classify, id);
      RunStands(ops[..k - 1], classify);
      assert ops[..k][..k - 1] == ops[..k - 1];
    }
  }

  /** A read that saw the proposal resolved saw its final documents, however torn. */
  lemma ResolvedReadIsFinal(ops: seq<Op>, headAt: nat, rowsAt: nat, factsAt: seq<nat>, classify: Classifier, id: Id)
    requires headAt <= rowsAt <= |ops|
    requires id in BookAt(ops, headAt, classify) && BookAt(ops, headAt, classify)[id].status != Draft
    requires |factsAt| == |ReadRows(At(ops, rowsAt, classify), id)|
    requires forall i :: 0 <= i < |factsAt| ==> rowsAt <= factsAt[i] <= |ops|
    ensures id in BookAt(ops, |ops|, classify)
    ensures ReadDocuments(ReadRows(At(ops, rowsAt, classify), id),
                          seq(|factsAt|, i requires 0 <= i < |factsAt| => At(ops, factsAt[i], classify)))
         == BookAt(ops, |ops|, classify)[id].documents
  {
    hide At, BookAt, ReadRows, ReadDocuments;
    ResolvedForGood(ops, headAt, rowsAt, classify, id);
    ResolvedForGood(ops, headAt, |ops|, classify, id);
    TornRead(ops, rowsAt, factsAt, classify, id);
  }

  /** How many resolutions of a proposal succeed along a run. */
  function Resolutions(t: Tables, ops: seq<Op>, id: Id, classify: Classifier): nat {
    if ops == [] then 0
    else
      var n := |ops| - 1;
      var before := Run(t, ops[..n], classify);
      Resolutions(t, ops[..n], id, classify)
        + if ops[n].Resolve? && ops[n].id == id && Succeeds(before, ops[n]) then 1 else 0
  }

  predicate TriesToResolve(ops: seq<Op>, id: Id) {
    exists op :: op in ops && op.Resolve? && op.id == id && op.status != Draft
  }

  lemma TriesLast(ops: seq<Op>, id: Id)
    requires ops != []
    ensures var last := ops[|ops| - 1];
            TriesToResolve(ops, id) <==>
              TriesToResolve(ops[..|ops| - 1], id) || (last.Resolve? && last.id == id && last.status != Draft)
  {
    assert ops == ops[..|ops| - 1] + [ops[|ops| - 1]];
    assert forall op :: op in ops <==> op in ops[..|ops| - 1] || op == ops[|ops| - 1];
  }

  /** Of any callers racing to resolve one draft, exactly one succeeds. */
  lemma {:induction false} OneResolutionWins(t: Tables, ops: seq<Op>, id: Id, classify: Classifier)
    requires IsDraft(t, id) && id < t.next
    ensures Resolutions(t, ops, id, classify) == if TriesToResolve(ops, id) then 1 else 0
    ensures id in Run(t, ops, classify).proposals && id < Run(t, ops, classify).next
    ensures IsDraft(Run(t, ops, classify), id) <==> !TriesToResolve(ops, id)
  {
    hide LegalDocument, NormalizeAll, MaxSequence, OfProposal;
    if ops != [] {
      hide TriesToResolve;
      OneResolutionWins(t, ops[..|ops| - 1], id, classify);
      TriesLast(ops, id);
    } else {
      assert !TriesToResolve(ops, id);
    }
  }

  /** The status that stays is the winner's: the first resolution tried. */
  lemma {:induction false} FirstResolutionStays(t: Tables, ops: seq<Op>, id: Id, classify: Classifier, k: nat)
    requires IsDraft(t, id) && id < t.next
    requires k < |ops| && ops[k].Resolve? && ops[k].id == id && ops[k].status != Draft
    requires !TriesToResolve(ops[..k], id)
    ensures id in Run(t, ops, classify).proposals && Run(t, ops, classify).proposals[id].status == ops[k].status
    decreases |ops|
  {
    hide Apply, TriesToResolve, IsDraft;
    var n := |ops| - 1;
    OneResolutionWins(t, ops[..n], id, classify);
    if k < n {
      assert ops[..n][..k] == ops[..k] && ops[..n][k] == ops[k];
      FirstResolutionStays(t, ops[..n], id, classify, k);
      TriedAt(ops[..n], id, k);
    }
    StatusAfter(Run(t, ops[..n], classify), ops[n], id, classify);
  }

  lemma TriedAt(ops: seq<Op>, id: Id, k: nat)
    requires k < |ops| && ops[k].Resolve? && ops[k].id == id && ops[k].status != Draft
    ensures TriesToResolve(ops, id)
  {
    assert ops[k] in ops;
  }

  /** One operation on a stored proposal: a draft takes the status it is resolved to, any other keeps its own. */
  lemma StatusAfter(t: Tables, op: Op, id: Id, classify: Classifier)
    requires id in t.proposals && id < t.next
    ensures id in Apply(t, op, classify).proposals
    ensures Apply(t, op, classify).proposals[id].status
      == if IsDraft(t, id) && op.Resolve? && op.id == id then op.status else t.proposals[id].status
  {
    hide LegalDocument, NormalizeAll, MaxSequence, OfProposal;
  }
}

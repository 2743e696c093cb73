/**
 * The case workspace of the application shell: Bates numbering and case stamping of saved
 * documents and events, the demo seed, and the selection of timeline events.
 */
module CaseApp {
  import opened Records
  import opened Text
  import opened Persistence
  import EvidenceInput

  const DemoCaseId: string := "3:24-cv-00579"
  const BatesPrefix: string := "DEF-"

  // ---------------------------------------------------------------------------------------
  // Bates labels

  /** The label of the document saved when `count` documents are listed: `DEF-${String(count + 1).padStart(3, '0')}`. */
  function BatesLabel(count: nat): string {
    BatesPrefix + PadStart(Decimal(count + 1), 3, '0')
  }

  /** The digits of a label, after its prefix. */
  function LabelDigits(bates: string): string
    requires |bates| >= |BatesPrefix|
  {
    bates[|BatesPrefix|..]
  }

  /**
   * A label is "DEF-" and then digits that read back to `count + 1`; it has at least three
   * digits, and exactly as many as `count + 1` once that needs more, so padding never truncates.
   */
  lemma BatesLabelReadsBack(count: nat)
    ensures var bates := BatesLabel(count);
      StartsWith(bates, BatesPrefix) &&
      (forall i :: 0 <= i < |LabelDigits(bates)| ==> IsDigit(LabelDigits(bates)[i])) &&
      DigitsValue(LabelDigits(bates)) == count + 1 &&
      |LabelDigits(bates)| == if |Decimal(count + 1)| < 3 then 3 else |Decimal(count + 1)|
  {
    var bates, s := BatesLabel(count), Decimal(count + 1);
    assert bates[..|BatesPrefix|] == BatesPrefix;
    assert LabelDigits(bates) == PadStart(s, 3, '0');
    DecimalRoundTrip(count + 1);
    if |s| < 3 {
      LeadingZeros(3 - |s|, s);
    }
  }

  /** Different counts get different labels. */
  lemma BatesLabelsDistinct(m: nat, n: nat)
    requires m != n
    ensures BatesLabel(m) != BatesLabel(n)
  {
    BatesLabelReadsBack(m);
    BatesLabelReadsBack(n);
  }

  /** The first label, and the first one past three digits. */
  lemma BatesLabelExamples()
    ensures BatesLabel(0) == "DEF-001" && BatesLabel(998) == "DEF-999" && BatesLabel(999) == "DEF-1000"
  {
    assert Decimal(1) == "1" && Decimal(9) == "9";
    assert Decimal(99) == "99" by { assert Decimal(99) == Decimal(9) + "9"; }
    assert Decimal(999) == "999" by { assert Decimal(999) == Decimal(99) + "9"; }
    assert Decimal(10) == "10" by { assert Decimal(10) == Decimal(1) + "0"; }
    assert Decimal(100) == "100" by { assert Decimal(100) == Decimal(10) + "0"; }
    assert Decimal(1000) == "1000" by { assert Decimal(1000) == Decimal(100) + "0"; }
    assert PadStart("1", 3, '0') == "001" by { assert Repeat('0', 2) == "00"; }
    assert PadStart("999", 3, '0') == "999" && PadStart("1000", 3, '0') == "1000";
  }

  // ---------------------------------------------------------------------------------------
  // Stamping

  /** `{ ...doc, batesNumber, reliabilityScore: 100, caseId }`. */
  function Stamped(doc: Document, count: nat, caseId: string): (r: Document)
    ensures r == doc.(batesNumber := r.batesNumber, reliabilityScore := r.reliabilityScore, caseId := r.caseId)
  {
    doc.(batesNumber := Some(BatesLabel(count)), reliabilityScore := Some(100), caseId := Some(caseId))
  }

  /** A stamped document keeps every field of its own and carries the label, full reliability and the case. */
  lemma StampedFields(doc: Document, count: nat, caseId: string)
    ensures var r := Stamped(doc, count, caseId);
      r.id == doc.id && r.title == doc.title && r.content == doc.content && r.mediaData == doc.mediaData &&
      r.date == doc.date && r.docType == doc.docType && r.hash == doc.hash && r.addedAt == doc.addedAt &&
      r.batesNumber.Some? && DigitsValue(LabelDigits(r.batesNumber.value)) == count + 1 &&
      r.reliabilityScore == Some(100) && r.caseId == Some(caseId)
  {
    BatesLabelReadsBack(count);
  }

  /** `{ ...ev, caseId }` for every event, in order. */
  function WithCase(events: seq<TimelineEvent>, caseId: string): (r: seq<TimelineEvent>)
  {
    seq(|events|, k requires 0 <= k < |events| => events[k].(caseId := Some(caseId)))
  }

  /** `initialDocuments.map((doc, idx) => ...)`: document `idx` stamped as if `idx` were listed, in the demo case. */
  function SeedDocs(docs: seq<Document>): (r: seq<Document>)
  {
    seq(|docs|, i requires 0 <= i < |docs| => Stamped(docs[i], i, DemoCaseId))
  }

  /** Every seeded document is in the demo case, and no two share a Bates label. */
  lemma SeedLabelsDistinct(docs: seq<Document>)
    ensures var seed := SeedDocs(docs);
      (forall i :: 0 <= i < |seed| ==> seed[i].caseId == Some(DemoCaseId) && seed[i].batesNumber == Some(BatesLabel(i))) &&
      (forall i, j :: 0 <= i < j < |seed| ==> seed[i].batesNumber != seed[j].batesNumber)
  {
    var seed := SeedDocs(docs);
    forall i, j | 0 <= i < j < |seed| ensures seed[i].batesNumber != seed[j].batesNumber {
      BatesLabelsDistinct(i, j);
    }
  }

  /** `initialTimelineData.flatMap(m => m.events)` */
  function Flatten(months: seq<seq<TimelineEvent>>): (r: seq<TimelineEvent>)
    decreases |months|
  {
    if months == [] then [] else Flatten(months[..|months| - 1]) + months[|months| - 1]
  }

  /** Every event of every month is in the flattened list, and nothing else. */
  lemma {:induction false} FlattenMembers(months: seq<seq<TimelineEvent>>)
    ensures forall e :: e in Flatten(months) <==> exists m :: 0 <= m < |months| && e in months[m]
    decreases |months|
  {
    if months != [] {
      var init := months[..|months| - 1];
      FlattenMembers(init);
      forall e ensures e in Flatten(months) <==> exists m :: 0 <= m < |months| && e in months[m] {
        if e in Flatten(init) {
          var m :| 0 <= m < |init| && e in init[m];
          assert months[m] == init[m];
        }
        if exists m :: 0 <= m < |months| && e in months[m] {
          var m :| 0 <= m < |months| && e in months[m];
          if m < |months| - 1 {
            assert init[m] == months[m];
          }
        }
      }
    }
  }

  // ---------------------------------------------------------------------------------------
  // Sequences of awaited saves

  /** The first save among `k .. n - 1` that fails, or `n` when none does. */
  function FirstFault(fault: nat -> bool, k: nat, n: nat): (r: nat)
    requires k <= n
    ensures k <= r <= n
    ensures r < n ==> fault(r)
    ensures forall j :: k <= j < r ==> !fault(j)
    decreases n - k
  {
    if k == n then n else if fault(k) then k else FirstFault(fault, k + 1, n)
  }

  /** The fault oracle of the saves that follow the first `a`: save `k` of them is save `a + k` of the run. */
  function Shift(fault: nat -> bool, a: nat): (g: nat -> bool)
    ensures forall k: nat :: g(k) == fault(a + k)
  {
    (k: nat) => fault(a + k)
  }

  /** How many of `b` saves that follow `a` others take effect: none unless all of the `a` did. */
  function SavedAfter(fault: nat -> bool, a: nat, b: nat): (e: nat)
    ensures e <= b
    ensures e > 0 ==> FirstFault(fault, 0, a) == a
  {
    if FirstFault(fault, 0, a) == a then FirstFault(Shift(fault, a), 0, b) else 0
  }

  /** `FirstFault` is the only count with its three properties. */
  lemma FirstFaultUnique(fault: nat -> bool, k: nat, n: nat, r: nat)
    requires k <= r <= n && (r < n ==> fault(r))
    requires forall j :: k <= j < r ==> !fault(j)
    ensures FirstFault(fault, k, n) == r
  {
  }

  /**
   * Running `a` saves and then `b` more, stopping at the first failure, takes effect on the
   * saves of the first run that took effect and then on those of the second.
   */
  lemma FirstFaultSplit(fault: nat -> bool, a: nat, b: nat)
    ensures FirstFault(fault, 0, a + b) == FirstFault(fault, 0, a) + SavedAfter(fault, a, b)
  {
    var m := FirstFault(fault, 0, a);
    if m < a {
      FirstFaultUnique(fault, 0, a + b, m);
    } else {
      var g := Shift(fault, a);
      var q := FirstFault(g, 0, b);
      assert q < b ==> fault(a + q) by {
        if q < b { assert g(q); }
      }
      forall j | 0 <= j < a + q
        ensures !fault(j)
      {
        if a <= j {
          assert !g(j - a);
        }
      }
      FirstFaultUnique(fault, 0, a + b, a + q);
    }
  }

  /** With no failure every save takes effect. */
  lemma {:induction false} FirstFaultNone(fault: nat -> bool, k: nat, n: nat)
    requires k <= n && forall j :: k <= j < n ==> !fault(j)
    ensures FirstFault(fault, k, n) == n
    decreases n - k
  {
    if k < n {
      FirstFaultNone(fault, k + 1, n);
    }
  }

  /** The events store after `saveEvent` of each event in turn: an upsert by id. */
  function PutEvents(store: map<string, TimelineEvent>, events: seq<TimelineEvent>): map<string, TimelineEvent>
    decreases |events|
  {
    if events == [] then store
    else PutEvents(store, events[..|events| - 1])[events[|events| - 1].id := events[|events| - 1]]
  }

  /**
   * Saving events adds exactly their ids; each of them then holds one of the saved events
   * with that id, and every other id keeps its record.
   */
  lemma {:induction false} PutEventsContents(store: map<string, TimelineEvent>, events: seq<TimelineEvent>)
    ensures var r := PutEvents(store, events);
      (forall id :: id in r <==> id in store || exists k :: 0 <= k < |events| && events[k].id == id) &&
      (forall id :: id in r ==>
        (exists k :: 0 <= k < |events| && r[id] == events[k] && events[k].id == id) ||
        ((forall k :: 0 <= k < |events| ==> events[k].id != id) && r[id] == store[id]))
    decreases |events|
  {
    if events != [] {
      var init, e := events[..|events| - 1], events[|events| - 1];
      PutEventsContents(store, init);
      forall k | 0 <= k < |init| ensures init[k] == events[k] { }
    }
  }

  /** Events saved with `WithCase` are stored in that case: every id the saves touched now holds an event of the case. */
  lemma PutEventsInCase(store: map<string, TimelineEvent>, events: seq<TimelineEvent>, caseId: string)
    ensures var r := PutEvents(store, WithCase(events, caseId));
      forall k :: 0 <= k < |events| ==> events[k].id in r && r[events[k].id].caseId == Some(caseId)
  {
    var stamped := WithCase(events, caseId);
    PutEventsContents(store, stamped);
    forall k | 0 <= k < |events|
      ensures events[k].id in PutEvents(store, stamped) && PutEvents(store, stamped)[events[k].id].caseId == Some(caseId)
    {
      assert stamped[k].id == events[k].id;
    }
  }

  /** The metadata store after `saveDocument` of each document in turn. */
  function PutMetadata(store: map<string, DocumentMetadata>, docs: seq<Document>): map<string, DocumentMetadata>
    decreases |docs|
  {
    if docs == [] then store else PutMetadata(store, docs[..|docs| - 1])[docs[|docs| - 1].id := Split(docs[|docs| - 1]).0]
  }

  /** The content store after `saveDocument` of each document in turn. */
  function PutBlobs(store: map<string, DocumentBlob>, docs: seq<Document>): map<string, DocumentBlob>
    decreases |docs|
  {
    if docs == [] then store else PutBlobs(store, docs[..|docs| - 1])[docs[|docs| - 1].id := Split(docs[|docs| - 1]).1]
  }

  /** Every saved document's metadata and content are stored under its id, unless a later save reused the id. */
  lemma {:induction false} PutDocumentsContents(metadata: map<string, DocumentMetadata>, blobs: map<string, DocumentBlob>, docs: seq<Document>)
    ensures var m, b := PutMetadata(metadata, docs), PutBlobs(blobs, docs);
      forall k :: 0 <= k < |docs| && (forall l :: k < l < |docs| ==> docs[l].id != docs[k].id) ==>
        docs[k].id in m && docs[k].id in b && Join(m[docs[k].id], b[docs[k].id]) == docs[k]
    decreases |docs|
  {
    if docs != [] {
      var init := docs[..|docs| - 1];
      PutDocumentsContents(metadata, blobs, init);
      forall k | 0 <= k < |init| ensures init[k] == docs[k] { }
    }
  }

  /**
   * `for (const ev of events) await db.saveEvent(ev)`: the saves before the first failure
   * take effect, the failure rejects and the rest are never made; `saved` is how many took effect.
   */
  method SaveEvents(db: PersistenceLayer, events: seq<TimelineEvent>, fault: nat -> bool) returns (saved: nat, r: Reply<()>)
    requires db.Valid()
    modifies db`events
    ensures db.Valid()
    ensures saved == (if db.isOpen then FirstFault(fault, 0, |events|) else 0)
    ensures db.events == PutEvents(old(db.events), events[..saved])
    ensures r == (if saved == |events| then Ok(()) else if db.isOpen then Err(TransactionError) else Err(NotInitialized))
    ensures r.Ok? ==> db.events == PutEvents(old(db.events), events)
  {
    saved := 0;
    while saved < |events|
      invariant db.Valid()
      invariant saved <= |events| && db.events == PutEvents(old(db.events), events[..saved])
      invariant db.isOpen ==> FirstFault(fault, 0, |events|) == FirstFault(fault, saved, |events|)
      invariant !db.isOpen ==> saved == 0
      decreases |events| - saved
    {
      var one := db.SaveEvent(events[saved], fault(saved));
      if one.Err? {
        return saved, one;
      }
      assert events[..saved + 1][..saved] == events[..saved];
      saved := saved + 1;
    }
    assert saved == |events| && events[..saved] == events;
    r := Ok(());
  }

  /** `for (const doc of docs) await db.saveDocument(doc)`, stopping at the first failure. */
  method SaveDocuments(db: PersistenceLayer, docs: seq<Document>, fault: nat -> bool) returns (saved: nat, r: Reply<()>)
    requires db.Valid()
    modifies db`documents, db`blobs
    ensures db.Valid()
    ensures saved == (if db.isOpen then FirstFault(fault, 0, |docs|) else 0)
    ensures db.documents == PutMetadata(old(db.documents), docs[..saved])
    ensures db.blobs == PutBlobs(old(db.blobs), docs[..saved])
    ensures r == (if saved == |docs| then Ok(()) else if db.isOpen then Err(TransactionError) else Err(NotInitialized))
    ensures r.Ok? ==> db.documents == PutMetadata(old(db.documents), docs) && db.blobs == PutBlobs(old(db.blobs), docs)
  {
    saved := 0;
    while saved < |docs|
      invariant db.Valid()
      invariant saved <= |docs|
      invariant db.documents == PutMetadata(old(db.documents), docs[..saved])
      invariant db.blobs == PutBlobs(old(db.blobs), docs[..saved])
      invariant db.isOpen ==> FirstFault(fault, 0, |docs|) == FirstFault(fault, saved, |docs|)
      invariant !db.isOpen ==> saved == 0
      decreases |docs| - saved
    {
      var one := db.SaveDocument(docs[saved], fault(saved));
      if one.Err? {
        return saved, one;
      }
      assert docs[..saved + 1][..saved] == docs[..saved];
      saved := saved + 1;
    }
    assert saved == |docs| && docs[..saved] == docs;
    r := Ok(());
  }

  /** The demo workspace record; `created` and `lastModified` are two separate timestamps. */
  function DemoCase(created: string, lastModified: string): (c: CaseMetadata)
    ensures c.id == DemoCaseId && c.created == created && c.lastModified == lastModified
  {
    CaseMetadata(DemoCaseId, "DEMO: Church v. Breslow", "Federal Civil Rights Action", created, lastModified)
  }

  /** Stamping keeps the number of seed documents and of events. */
  lemma SeedLengths(seedDocuments: seq<Document>, months: seq<seq<TimelineEvent>>)
    ensures |SeedDocs(seedDocuments)| == |seedDocuments|
    ensures |WithCase(Flatten(months), DemoCaseId)| == |Flatten(months)|
  {
  }

  /**
   * What a demo seed on an open database leaves in the stores: the saves before the first
   * failure, in order (the case, then the documents, then the events), and none after it.
   */
  twostate predicate SeedWritten(db: PersistenceLayer, demo: CaseMetadata, docs: seq<Document>, events: seq<TimelineEvent>,
                                 fault: nat -> bool)
    reads db
  {
    var rest := Shift(fault, 1);
    var d := if fault(0) then 0 else FirstFault(rest, 0, |docs|);
    var e := if fault(0) then 0 else SavedAfter(rest, |docs|, |events|);
    db.cases == (if fault(0) then old(db.cases) else old(db.cases)[demo.id := demo]) &&
    db.documents == PutMetadata(old(db.documents), docs[..d]) &&
    db.blobs == PutBlobs(old(db.blobs), docs[..d]) &&
    db.events == PutEvents(old(db.events), events[..e])
  }

  /**
   * The saves of `handleLoadDemo`, each awaited in turn (`fault(k)` fails save number `k`):
   * the demo case, then each stamped seed document, then every stamped event. A failure
   * rejects and ends the run.
   */
  method SeedDemo(db: PersistenceLayer, demo: CaseMetadata, docs: seq<Document>, events: seq<TimelineEvent>, fault: nat -> bool)
    returns (r: Reply<()>)
    requires db.Valid() && demo.id == DemoCaseId
    modifies db`cases, db`documents, db`blobs, db`events
    ensures db.Valid()
    ensures !db.isOpen ==> r == Err(NotInitialized) && unchanged(db)
    ensures db.isOpen ==> SeedWritten(db, demo, docs, events, fault)
    ensures db.isOpen ==> r == (var n := 1 + |docs| + |events|;
      if FirstFault(fault, 0, n) == n then Ok(()) else Err(TransactionError))
    ensures r.Ok? ==>
      db.cases == old(db.cases)[DemoCaseId := demo] &&
      db.documents == PutMetadata(old(db.documents), docs) &&
      db.blobs == PutBlobs(old(db.blobs), docs) &&
      db.events == PutEvents(old(db.events), events)
  {
    FirstFaultSplit(fault, 1, |docs| + |events|);
    assert FirstFault(fault, 0, 1) == if fault(0) then 0 else 1;
    r := db.SaveCase(demo, fault(0));
    if r.Err? {
      assert docs[..0] == [] && events[..0] == [];
      return;
    }
    r := SeedRecords(db, docs, events, Shift(fault, 1));
  }

  /** The document saves, then the event saves, of `handleLoadDemo`; a failure rejects and ends the run. */
  method SeedRecords(db: PersistenceLayer, docs: seq<Document>, events: seq<TimelineEvent>, fault: nat -> bool)
    returns (r: Reply<()>)
    requires db.Valid()
    modifies db`documents, db`blobs, db`events
    ensures db.Valid()
    ensures !db.isOpen ==> r == (if docs == [] && events == [] then Ok(()) else Err(NotInitialized)) && unchanged(db)
    ensures db.isOpen ==> (var d, e := FirstFault(fault, 0, |docs|), SavedAfter(fault, |docs|, |events|);
      db.documents == PutMetadata(old(db.documents), docs[..d]) &&
      db.blobs == PutBlobs(old(db.blobs), docs[..d]) &&
      db.events == PutEvents(old(db.events), events[..e]))
    ensures db.isOpen ==> r == (var n := |docs| + |events|;
      if FirstFault(fault, 0, n) == n then Ok(()) else Err(TransactionError))
    ensures r.Ok? ==>
      db.documents == PutMetadata(old(db.documents), docs) &&
      db.blobs == PutBlobs(old(db.blobs), docs) &&
      db.events == PutEvents(old(db.events), events)
  {
    FirstFaultSplit(fault, |docs|, |events|);
    var count;
    count, r := SaveDocuments(db, docs, fault);
    if r.Err? {
      assert events[..0] == [];
      return;
    }
    assert docs[..count] == docs;
    count, r := SaveEvents(db, events, Shift(fault, |docs|));
    assert db.isOpen ==> count == SavedAfter(fault, |docs|, |events|);
  }

  // ---------------------------------------------------------------------------------------
  // The workspace

  /** How a handler settles: refused with no active case, rejected by the store, or done. */
  datatype Outcome = NoActiveCase | Rejected(error: DbError) | Done

  /** `toggleEventSelection`: a copy of the selection with `id` removed if present and added if not. */
  function Toggled(selection: set<string>, id: string): set<string> {
    if id in selection then selection - {id} else selection + {id}
  }

  /** Toggling flips the membership of `id` and of nothing else. */
  lemma ToggledFlips(selection: set<string>, id: string)
    ensures id in Toggled(selection, id) <==> id !in selection
    ensures forall other :: other != id ==> (other in Toggled(selection, id) <==> other in selection)
  {
  }

  /** Toggling twice restores the selection. */
  lemma ToggledTwice(selection: set<string>, id: string)
    ensures Toggled(Toggled(selection, id), id) == selection
  {
  }

  /** The `(prev) => [...prev.filter(c => c.id !== DEMO_CASE_ID), demoCase]` update of the case list. */
  function WithDemoCase(cases: seq<CaseMetadata>, demo: CaseMetadata): (r: seq<CaseMetadata>)
    decreases |cases|
  {
    if cases == [] then [demo]
    else (if cases[0].id != DemoCaseId then [cases[0]] else []) + WithDemoCase(cases[1..], demo)
  }

  /** The cases other than the demo case, in order. */
  function Others(cases: seq<CaseMetadata>): seq<CaseMetadata>
    decreases |cases|
  {
    if cases == [] then [] else (if cases[0].id != DemoCaseId then [cases[0]] else []) + Others(cases[1..])
  }

  /** `Others` keeps exactly the cases that are not the demo case. */
  lemma {:induction false} OthersMembers(cases: seq<CaseMetadata>)
    ensures forall c :: c in Others(cases) <==> c in cases && c.id != DemoCaseId
    decreases |cases|
  {
    if cases != [] {
      OthersMembers(cases[1..]);
      forall c ensures c in cases <==> c == cases[0] || c in cases[1..] {
        assert cases == [cases[0]] + cases[1..];
      }
    }
  }

  /** The new list is the other cases followed by the demo case. */
  lemma {:induction false} WithDemoCaseAppends(cases: seq<CaseMetadata>, demo: CaseMetadata)
    ensures WithDemoCase(cases, demo) == Others(cases) + [demo]
    decreases |cases|
  {
    if cases != [] {
      WithDemoCaseAppends(cases[1..], demo);
      var head := if cases[0].id != DemoCaseId then [cases[0]] else [];
      assert head + (Others(cases[1..]) + [demo]) == (head + Others(cases[1..])) + [demo];
    }
  }

  /** The case list then ends with the demo case, holds it once, and keeps every other case. */
  lemma WithDemoCaseOnce(cases: seq<CaseMetadata>, demo: CaseMetadata)
    requires demo.id == DemoCaseId
    ensures var r := WithDemoCase(cases, demo);
      r != [] && r[|r| - 1] == demo &&
      (forall i :: 0 <= i < |r| - 1 ==> r[i].id != DemoCaseId) &&
      (forall c :: c in r[..|r| - 1] <==> c in cases && c.id != DemoCaseId)
  {
    var r := WithDemoCase(cases, demo);
    WithDemoCaseAppends(cases, demo);
    OthersMembers(cases);
    assert r[..|r| - 1] == Others(cases);
    forall i | 0 <= i < |r| - 1 ensures r[i].id != DemoCaseId {
      assert r[i] in Others(cases);
    }
  }

  /** The application shell's persistent state, over the store it saves into. */
  class CaseWorkspace {
    const db: PersistenceLayer
    var cases: seq<CaseMetadata>
    var activeCaseId: string
    var documents: seq<Document>
    var selectedEventIds: set<string>

    /** A workspace over `db`, with the active case remembered from the last session (`""` when none). */
    constructor (db: PersistenceLayer, rememberedCaseId: string)
      ensures this.db == db && cases == [] && activeCaseId == rememberedCaseId && documents == [] && selectedEventIds == {}
    {
      this.db := db;
      cases := [];
      activeCaseId := rememberedCaseId;
      documents := [];
      selectedEventIds := {};
    }

    /**
     * `handleAddDocument`: with no active case nothing is saved. Otherwise the document is
     * saved stamped with the next Bates label, full reliability and the active case, and the
     * listing of the case replaces the documents.
     */
    method HandleAddDocument(doc: Document, saveFault: bool, listFault: bool) returns (r: Outcome)
      requires db.Valid()
      modifies this`documents, db`documents, db`blobs
      ensures db.Valid()
      ensures activeCaseId == "" ==> (r == NoActiveCase && documents == old(documents) &&
        db.documents == old(db.documents) && db.blobs == old(db.blobs))
      ensures activeCaseId != "" ==>
        var stamped := Stamped(doc, |old(documents)|, activeCaseId);
        var saved := db.isOpen && !saveFault;
        db.documents == (if saved then old(db.documents)[doc.id := Split(stamped).0] else old(db.documents)) &&
        db.blobs == (if saved then old(db.blobs)[doc.id := Split(stamped).1] else old(db.blobs)) &&
        r == (if !db.isOpen then Rejected(NotInitialized) else if saveFault || listFault then Rejected(TransactionError) else Done)
      ensures r == Done ==>
        Listed(Split(Stamped(doc, |old(documents)|, activeCaseId)).0) in documents &&
        (forall d :: d in documents ==> d.content == None && d.caseId == Some(activeCaseId) && d.id in db.documents) &&
        (forall m :: m in db.documents.Values && m.caseId == Some(activeCaseId) ==> Listed(m) in documents)
      ensures r != Done ==> documents == old(documents)
    {
      if activeCaseId == "" {
        return NoActiveCase;
      }
      var newDoc := Stamped(doc, |documents|, activeCaseId);
      var saved := db.SaveDocument(newDoc, saveFault);
      if saved.Err? {
        return Rejected(saved.error);
      }
      var docs := db.GetDocumentsByCase(activeCaseId, listFault);
      if docs.Err? {
        return Rejected(docs.error);
      }
      documents := ListAll(docs.value);
      ListAllMembers(docs.value);
      assert Split(newDoc).0 in db.documents.Values by {
        assert db.documents[doc.id] == Split(newDoc).0;
      }
      forall d | d in documents ensures d.id in db.documents {
        var m :| m in docs.value && Listed(m) == d;
        var k :| k in db.documents && db.documents[k] == m;
      }
      r := Done;
    }

    /**
     * `handleAddEvents`: with no active case nothing is saved; otherwise the events are saved
     * in order, each stamped with the active case, until the first failure.
     */
    method HandleAddEvents(newEvents: seq<TimelineEvent>, fault: nat -> bool) returns (r: Outcome, saved: nat)
      requires db.Valid()
      modifies db`events
      ensures db.Valid()
      ensures activeCaseId == "" ==> r == NoActiveCase && saved == 0 && db.events == old(db.events)
      ensures activeCaseId != "" ==>
        saved == (if db.isOpen then FirstFault(fault, 0, |newEvents|) else 0) &&
        db.events == PutEvents(old(db.events), WithCase(newEvents[..saved], activeCaseId)) &&
        r == (if saved == |newEvents| then Done else if db.isOpen then Rejected(TransactionError) else Rejected(NotInitialized))
    {
      if activeCaseId == "" {
        return NoActiveCase, 0;
      }
      var stamped := WithCase(newEvents, activeCaseId);
      var one;
      saved, one := SaveEvents(db, stamped, fault);
      assert stamped[..saved] == WithCase(newEvents[..saved], activeCaseId);
      r := if one.Ok? then Done else Rejected(one.error);
    }

    /** `handleLoadDemo`: a declined `confirm` changes nothing; a confirmed one loads the demo. */
    method HandleLoadDemo(confirmed: bool, seedDocuments: seq<Document>, months: seq<seq<TimelineEvent>>,
                          created: string, lastModified: string, fault: nat -> bool)
      returns (r: Outcome)
      requires db.Valid()
      modifies this, db`cases, db`documents, db`blobs, db`events
      ensures db.Valid()
      ensures !confirmed ==> r == Done && unchanged(this) && unchanged(db)
      ensures confirmed ==> DemoLoaded(r, seedDocuments, months, created, lastModified, fault)
    {
      if !confirmed {
        return Done;
      }
      r := LoadDemo(seedDocuments, months, created, lastModified, fault);
    }

    /**
     * What loading the demo leaves: on a closed database a rejection and no change; on an open
     * one the saves before the first failure (`SeedWritten`) and a rejection unless every save
     * took effect. Once all did, the case list holds the demo case once, last, and the
     * workspace is switched to it; otherwise the workspace is as it was.
     */
    twostate predicate DemoLoaded(r: Outcome, seedDocuments: seq<Document>, months: seq<seq<TimelineEvent>>,
                                  created: string, lastModified: string, fault: nat -> bool)
      reads this, db
    {
      (!db.isOpen ==> r == Rejected(NotInitialized) && unchanged(db)) &&
      (db.isOpen ==> r == (var n := 1 + |seedDocuments| + |Flatten(months)|;
         if FirstFault(fault, 0, n) == n then Done else Rejected(TransactionError))) &&
      (db.isOpen ==>
         SeedWritten(db, DemoCase(created, lastModified), SeedDocs(seedDocuments), WithCase(Flatten(months), DemoCaseId), fault)) &&
      (r == Done ==>
         db.cases == old(db.cases)[DemoCaseId := DemoCase(created, lastModified)] &&
         db.documents == PutMetadata(old(db.documents), SeedDocs(seedDocuments)) &&
         db.blobs == PutBlobs(old(db.blobs), SeedDocs(seedDocuments)) &&
         db.events == PutEvents(old(db.events), WithCase(Flatten(months), DemoCaseId)) &&
         cases == WithDemoCase(old(cases), DemoCase(created, lastModified)) &&
         activeCaseId == DemoCaseId && documents == [] && selectedEventIds == {}) &&
      (r != Done ==> unchanged(this))
    }

    /**
     * The confirmed part of `handleLoadDemo`: the demo seed is saved; once it all is, the case
     * list gains the demo case once and the workspace switches to it. A rejected save leaves
     * the workspace as it was.
     */
    method LoadDemo(seedDocuments: seq<Document>, months: seq<seq<TimelineEvent>>,
                    created: string, lastModified: string, fault: nat -> bool)
      returns (r: Outcome)
      requires db.Valid()
      modifies this, db`cases, db`documents, db`blobs, db`events
      ensures db.Valid()
      ensures DemoLoaded(r, seedDocuments, months, created, lastModified, fault)
    {
      var demo, docs, events := DemoCase(created, lastModified), SeedDocs(seedDocuments), WithCase(Flatten(months), DemoCaseId);
      SeedLengths(seedDocuments, months);
      var seeded := SeedDemo(db, demo, docs, events, fault);
      if seeded.Err? {
        return Rejected(seeded.error);
      }
      SwitchToDemo(demo);
      r := Done;
    }

    /** `setCases` with the demo case once, then `handleSwitchCase(DEMO_CASE_ID)` up to the reload of the case. */
    method SwitchToDemo(demo: CaseMetadata)
      modifies this`cases, this`activeCaseId, this`documents, this`selectedEventIds
      ensures cases == WithDemoCase(old(cases), demo)
      ensures activeCaseId == DemoCaseId && documents == [] && selectedEventIds == {}
    {
      cases := WithDemoCase(cases, demo);
      activeCaseId := DemoCaseId;
      documents := [];
      selectedEventIds := {};
    }

    /** `toggleEventSelection(eventId)` on a copy of the selection. */
    method ToggleEventSelection(eventId: string)
      modifies this`selectedEventIds
      ensures selectedEventIds == Toggled(old(selectedEventIds), eventId)
    {
      var newSet := selectedEventIds;
      if eventId in newSet {
        newSet := newSet - {eventId};
      } else {
        newSet := newSet + {eventId};
      }
      selectedEventIds := newSet;
    }
  }

  /** The listing as the workspace keeps it: each metadata record read as a document without content. */
  function ListAll(ms: seq<DocumentMetadata>): (r: seq<Document>)
  {
    seq(|ms|, k requires 0 <= k < |ms| => Listed(ms[k]))
  }

  /** A document is listed exactly when its metadata record was, and it carries no content. */
  lemma ListAllMembers(ms: seq<DocumentMetadata>)
    ensures forall d :: d in ListAll(ms) <==> exists m :: m in ms && Listed(m) == d
    ensures forall d :: d in ListAll(ms) ==> d.content == None
  {
    forall d | d in ListAll(ms) ensures exists m :: m in ms && Listed(m) == d {
      var k :| 0 <= k < |ms| && ListAll(ms)[k] == d;
      assert ms[k] in ms;
    }
    forall m | m in ms ensures Listed(m) in ListAll(ms) {
      var k :| 0 <= k < |ms| && ms[k] == m;
      assert ListAll(ms)[k] == Listed(m);
    }
  }

  /**
   * Once the workspace lists any document of the case, uploading adds nothing: the listing
   * carries no content, and the exact-match gate throws on the first listed document.
   */
  lemma ListedDocumentsBlockUploads(ms: seq<DocumentMetadata>, files: seq<EvidenceInput.FileInput>, sv: EvidenceInput.Services)
    requires ms != []
    ensures var b := EvidenceInput.Ingest(files, |files|, ListAll(ms), sv);
      b.added == [] && b.duplicates == [] && b.errors == EvidenceInput.Names(files)
  {
    EvidenceInput.MetadataListingRejectsAll(files, |files|, ListAll(ms), sv);
    assert files[..|files|] == files;
  }
}

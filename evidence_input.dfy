/**
 * The evidence intake panel: a 32-bit content hash, the hex form of the SHA-256 digest, the
 * sequential batch-upload loop with its two duplicate gates, and the editing and committing of
 * the extracted event drafts.
 */
module EvidenceInput {
  import opened Records
  import opened Text

  // ---------------------------------------------------------------------------------------
  // `simpleHash`: the Java-style `31 * h + c` hash, truncated to a signed 32-bit value

  const TwoTo31: int := 0x8000_0000
  const TwoTo32: int := 0x1_0000_0000

  /** ECMAScript ToInt32 of an integral value: reduced modulo 2^32 into [-2^31, 2^31). */
  function ToInt32(x: int): (r: int)
    ensures -TwoTo31 <= r < TwoTo31
    ensures x == r + Turns(x) * TwoTo32
  {
    var m := x % TwoTo32;
    if m >= TwoTo31 then m - TwoTo32 else m
  }

  /** How many times ToInt32 wraps `x` around. */
  function Turns(x: int): int {
    x / TwoTo32 + (if x % TwoTo32 >= TwoTo31 then 1 else 0)
  }

  /** ToInt32 has period 2^32. */
  lemma ToInt32Periodic(y: int, k: int)
    ensures ToInt32(y + k * TwoTo32) == ToInt32(y)
  {
    var q, m := y / TwoTo32, y % TwoTo32;
    assert y == q * TwoTo32 + m && 0 <= m < TwoTo32;
    assert y + k * TwoTo32 == (q + k) * TwoTo32 + m;
    ModUnique(y + k * TwoTo32, q + k, m);
  }

  /** The remainder modulo 2^32 is the one in [0, 2^32) that `x` decomposes into. */
  lemma ModUnique(x: int, q: int, m: int)
    requires x == q * TwoTo32 + m && 0 <= m < TwoTo32
    ensures x % TwoTo32 == m
  {
  }

  /** `charCodeAt`: the code of a character. */
  function Code(c: char): int {
    c as int
  }

  /** `hash << 5`: the left operand taken to 32 bits, shifted by five, read back as a signed value. */
  function ShiftLeft5(h: int): int {
    ToInt32(ToInt32(h) * 32)
  }

  /** One round of the loop: `hash = (hash << 5) - hash + char; hash = hash & hash`. */
  function HashStep(h: int, c: char): int {
    ToInt32(ShiftLeft5(h) - h + Code(c))
  }

  /** `simpleHash(s)`, folding `HashStep` over the characters from the left. */
  function Hash32(s: string): (h: int)
    ensures -TwoTo31 <= h < TwoTo31
    ensures s == [] ==> h == 0
    decreases |s|
  {
    if s == [] then 0 else HashStep(Hash32(s[..|s| - 1]), s[|s| - 1])
  }

  /** `n`-th power of `b`. */
  function Pow(b: int, n: nat): int
    decreases n
  {
    if n == 0 then 1 else b * Pow(b, n - 1)
  }

  /** The hash polynomial: the sum of `code(s[i]) * 31^(|s| - 1 - i)`. */
  function PowerSum(s: string): int
    decreases |s|
  {
    if s == [] then 0 else Code(s[0]) * Pow(31, |s| - 1) + PowerSum(s[1..])
  }

  /** Appending a character multiplies the polynomial by 31 and adds the code. */
  lemma {:induction false} PowerSumSnoc(s: string, c: char)
    ensures PowerSum(s + [c]) == 31 * PowerSum(s) + Code(c)
    decreases |s|
  {
    if s != [] {
      var t := s + [c];
      assert t[1..] == s[1..] + [c];
      PowerSumSnoc(s[1..], c);
      calc {
        PowerSum(t);
        Code(s[0]) * Pow(31, |s|) + PowerSum(s[1..] + [c]);
        Code(s[0]) * (31 * Pow(31, |s| - 1)) + 31 * PowerSum(s[1..]) + Code(c);
        { assert Code(s[0]) * (31 * Pow(31, |s| - 1)) == 31 * (Code(s[0]) * Pow(31, |s| - 1)); }
        31 * (Code(s[0]) * Pow(31, |s| - 1)) + 31 * PowerSum(s[1..]) + Code(c);
      }
    } else {
      assert [c][1..] == [];
    }
  }

  /** A round of the loop computes `31 * h + c` modulo 2^32. */
  lemma HashStepIsAffine(h: int, c: char)
    ensures HashStep(h, c) == ToInt32(31 * h + Code(c))
  {
    var s := ToInt32(h) * 32;
    var k := -(32 * Turns(h) + Turns(s));
    assert ShiftLeft5(h) - h + Code(c) == 31 * h + Code(c) + k * TwoTo32;
    ToInt32Periodic(31 * h + Code(c), k);
  }

  /** `simpleHash(s)` is the hash polynomial of `s` read as a signed 32-bit value. */
  lemma {:induction false} HashIsPowerSum(s: string)
    ensures Hash32(s) == ToInt32(PowerSum(s))
    decreases |s|
  {
    if s != [] {
      var p, c := s[..|s| - 1], s[|s| - 1];
      assert s == p + [c];
      HashIsPowerSum(p);
      HashStepIsAffine(Hash32(p), c);
      PowerSumSnoc(p, c);
      var k := Turns(PowerSum(p));
      assert 31 * Hash32(p) + Code(c) == 31 * PowerSum(p) + Code(c) + (-31 * k) * TwoTo32;
      ToInt32Periodic(31 * PowerSum(p) + Code(c), -31 * k);
    }
  }

  /** Different contents can share a hash: "Aa" and "BB" both hash to 2112. */
  lemma HashCollision()
    ensures Hash32("Aa") == Hash32("BB") == 2112
  {
    HashStepIsAffine(0, 'A');
    HashStepIsAffine(0, 'B');
    assert ToInt32(65) == 65 && ToInt32(66) == 66;
    assert Hash32("A") == 65 && Hash32("B") == 66 by {
      assert "A"[..0] == [] && "B"[..0] == [];
    }
    HashStepIsAffine(65, 'a');
    HashStepIsAffine(66, 'B');
    assert ToInt32(2112) == 2112;
    assert "Aa"[..1] == "A" && "BB"[..1] == "B";
  }

  /** `simpleHash(str)` */
  method SimpleHash(str: string) returns (hash: int)
    ensures hash == Hash32(str)
  {
    hash := 0;
    for i := 0 to |str|
      invariant hash == Hash32(str[..i])
    {
      var code := Code(str[i]);
      hash := ShiftLeft5(hash) - hash + code;
      hash := ToInt32(hash);  // `hash & hash`
      assert str[..i + 1][..i] == str[..i];
    }
    assert str[..|str|] == str;
  }

  // ---------------------------------------------------------------------------------------
  // The hex step of `computeHash`

  newtype byte = x: int | 0 <= x < 256

  /** A lowercase hex digit. */
  predicate IsHexDigit(c: char) {
    '0' <= c <= '9' || 'a' <= c <= 'f'
  }

  /** The lowercase hex digit of `d`. */
  function HexDigit(d: int): (c: char)
    requires 0 <= d < 16
    ensures IsHexDigit(c)
  {
    if d < 10 then ('0' as int + d) as char else ('a' as int + d - 10) as char
  }

  /** The value of a lowercase hex digit. */
  function HexValue(c: char): (d: int)
    requires IsHexDigit(c)
    ensures 0 <= d < 16 && HexDigit(d) == c
  {
    if c <= '9' then (c as int) - ('0' as int) else (c as int) - ('a' as int) + 10
  }

  /** `b.toString(16)`: lowercase hex digits without leading zeros. */
  function ToHex(b: byte): string {
    if b < 16 then [HexDigit(b as int)] else [HexDigit(b as int / 16), HexDigit(b as int % 16)]
  }

  /** The two lowercase hex digits of `b`, high one first. */
  function HexPair(b: byte): (r: string)
    ensures |r| == 2
  {
    [HexDigit(b as int / 16), HexDigit(b as int % 16)]
  }

  /** `b.toString(16).padStart(2, '0')` */
  function HexByte(b: byte): string {
    PadStart(ToHex(b), 2, '0')
  }

  /** Padding puts back the leading zero `toString(16)` drops, so every byte gives exactly its two digits. */
  lemma HexBytePair(b: byte)
    ensures HexByte(b) == HexPair(b)
  {
    if b < 16 {
      assert b as int / 16 == 0 && b as int % 16 == b as int;
      assert Repeat('0', 1) == ['0'];
    }
  }

  /**
   * The digest as `hashArray.map(b => b.toString(16).padStart(2, '0')).join('')`: the forms of
   * the bytes, in order, each written as the pair `HexBytePair` shows it to be.
   */
  function HexOfDigest(bytes: seq<byte>): (r: string)
    ensures |r| == 2 * |bytes|
    decreases |bytes|
  {
    if bytes == [] then [] else HexPair(bytes[0]) + HexOfDigest(bytes[1..])
  }

  /** The hex form of a digest is the first byte's padded form followed by the hex form of the rest. */
  lemma HexOfDigestJoins(bytes: seq<byte>)
    requires bytes != []
    ensures HexOfDigest(bytes) == HexByte(bytes[0]) + HexOfDigest(bytes[1..])
  {
    HexBytePair(bytes[0]);
  }

  /** Hex digit `k` of a digest: the high half of byte `k / 2` for even `k`, its low half for odd `k`. */
  function Nibble(bytes: seq<byte>, k: int): (d: int)
    requires 0 <= k < 2 * |bytes|
    ensures 0 <= d < 16
  {
    if k % 2 == 0 then bytes[k / 2] as int / 16 else bytes[k / 2] as int % 16
  }

  /** Character `k` of the hex form is hex digit `k` of the digest, so each byte gives its two digits, in order. */
  lemma HexOfDigestSpells(bytes: seq<byte>)
    ensures forall k :: 0 <= k < |HexOfDigest(bytes)| ==> HexOfDigest(bytes)[k] == HexDigit(Nibble(bytes, k))
  {
    forall k | 0 <= k < |HexOfDigest(bytes)| ensures HexOfDigest(bytes)[k] == HexDigit(Nibble(bytes, k)) {
      HexDigitAt(bytes, k);
    }
  }

  /** Character `k` of the hex form, by induction on the bytes before it. */
  lemma {:induction false} HexDigitAt(bytes: seq<byte>, k: int)
    requires 0 <= k < 2 * |bytes|
    ensures HexOfDigest(bytes)[k] == HexDigit(Nibble(bytes, k))
    decreases |bytes|
  {
    var r, rest := HexOfDigest(bytes), HexOfDigest(bytes[1..]);
    var b := bytes[0] as int;
    assert r == [HexDigit(b / 16), HexDigit(b % 16)] + rest;
    if k == 0 {
      assert 0 / 2 == 0 && 0 % 2 == 0;
      assert Nibble(bytes, 0) == b / 16;
    } else if k == 1 {
      assert 1 / 2 == 0 && 1 % 2 == 1;
      assert Nibble(bytes, 1) == b % 16;
    } else {
      HexDigitAt(bytes[1..], k - 2);
      NibbleShift(bytes, k);
    }
  }

  /** Dropping the first byte moves every hex digit two places down. */
  lemma NibbleShift(bytes: seq<byte>, k: int)
    requires 2 <= k < 2 * |bytes|
    ensures Nibble(bytes[1..], k - 2) == Nibble(bytes, k)
  {
    assert (k - 2) / 2 == k / 2 - 1 && (k - 2) % 2 == k % 2;
    assert bytes[1..][k / 2 - 1] == bytes[k / 2];
  }

  /** Every character of the hex form is a lowercase hex digit. */
  lemma HexOfDigestDigits(bytes: seq<byte>)
    ensures forall k :: 0 <= k < |HexOfDigest(bytes)| ==> IsHexDigit(HexOfDigest(bytes)[k])
  {
    HexOfDigestSpells(bytes);
  }

  /** The bytes a string of hex digit pairs spells. */
  function UnHex(s: string): (bytes: seq<byte>)
    requires |s| % 2 == 0 && forall i :: 0 <= i < |s| ==> IsHexDigit(s[i])
    ensures |bytes| == |s| / 2
    decreases |s|
  {
    if s == [] then [] else [(16 * HexValue(s[0]) + HexValue(s[1])) as byte] + UnHex(s[2..])
  }

  /** Reading the hex form back gives the digest: the hex step loses nothing. */
  lemma {:induction false} UnHexOfDigest(bytes: seq<byte>)
    ensures forall i :: 0 <= i < |HexOfDigest(bytes)| ==> IsHexDigit(HexOfDigest(bytes)[i])
    ensures UnHex(HexOfDigest(bytes)) == bytes
    decreases |bytes|
  {
    HexOfDigestSpells(bytes);
    if bytes != [] {
      var r := HexOfDigest(bytes);
      assert r[2..] == HexOfDigest(bytes[1..]);
      UnHexOfDigest(bytes[1..]);
      var b := bytes[0] as int;
      assert HexValue(r[0]) == b / 16 && HexValue(r[1]) == b % 16 by {
        HexDigitInjective(HexValue(r[0]), b / 16);
        HexDigitInjective(HexValue(r[1]), b % 16);
      }
    }
  }

  /** Distinct values have distinct hex digits. */
  lemma HexDigitInjective(d: int, e: int)
    requires 0 <= d < 16 && 0 <= e < 16 && HexDigit(d) == HexDigit(e)
    ensures d == e
  {
  }

  // ---------------------------------------------------------------------------------------
  // `handleFileUpload`: the batch loop

  /** A selected file: its name, MIME type and what `readFileAsBase64` yields (`None`: the read rejects). */
  datatype FileInput = FileInput(name: string, mimeType: string, data: Option<string>)

  /**
   * What `analyzeDocumentIdentity` resolves to; a string the code only tests for falsiness is
   * `""` when absent, and `date` is `None` when the reply has none.
   */
  datatype DocIdentity = DocIdentity(
    title: string,
    date: Option<string>,
    docType: string,
    isDuplicate: bool,
    duplicateOf: string,
    summary: string)

  /** One entry of the duplicate summary; `matched` is its `match` field. */
  datatype DuplicateEntry = DuplicateEntry(filename: string, matched: string)

  /**
   * What the loop calls but does not compute: the SHA-256 digest of the encoded text;
   * `analyzeDocumentIdentity(data, mimeType, batchTitles)` (`None`: it throws);
   * `processEvidenceWithAI(data, mimeType, ...)`, its parsed events (`[]` when it fails, as it
   * catches its own errors); and the clock, `Date.now()` and `new Date().toISOString()` while
   * file `i` is processed.
   */
  datatype Services = Services(
    digest: string -> seq<byte>,
    identify: (string, string, set<string>) -> Option<DocIdentity>,
    extract: (string, string) -> seq<TimelineEvent>,
    clock: nat -> nat,
    timestamp: nat -> string)

  /** The loop's state: the drafts, the duplicate summary, the batch's hashes and titles, the added documents and the logged failures. */
  datatype Batch = Batch(
    drafts: seq<TimelineEvent>,
    duplicates: seq<DuplicateEntry>,
    hashes: set<int>,
    titles: set<string>,
    added: seq<Document>,
    errors: seq<string>)

  const EmptyBatch := Batch([], [], {}, {}, [], [])
  const BatchDuplicate: string := "Duplicate in current batch"
  const ExistingRecord: string := "Existing Record"
  const ContentPrefix: string := "[Processed Content] "
  const DefaultSummary: string := "Content processed by AI"

  /** What `documents.find(d => simpleHash(d.content) === h)` does. */
  datatype Lookup =
    | Found(doc: Document)   // the first document whose content hashes to `h`
    | Missing                // no document's content hashes to `h`
    | TypeError              // a document without content came first: `simpleHash(undefined)` throws

  /** The global exact-match search over the listed documents, in order. */
  function FindExact(docs: seq<Document>, h: int): (r: Lookup)
    ensures r.Found? ==> r.doc in docs && r.doc.content.Some? && Hash32(r.doc.content.value) == h
    ensures r.Missing? <==> forall d :: d in docs ==> d.content.Some? && Hash32(d.content.value) != h
    ensures r.TypeError? ==> exists d :: d in docs && d.content.None?
    decreases |docs|
  {
    if docs == [] then Missing
    else if docs[0].content.None? then TypeError
    else if Hash32(docs[0].content.value) == h then Found(docs[0])
    else FindExact(docs[1..], h)
  }

  /**
   * Where `find` stops: the first document that has no content or whose content hashes to `h`,
   * or the number of documents when there is none.
   */
  function FirstStop(docs: seq<Document>, h: int): (k: nat)
    ensures k <= |docs|
    ensures forall j :: 0 <= j < k ==> docs[j].content.Some? && Hash32(docs[j].content.value) != h
    ensures k < |docs| ==> docs[k].content.None? || Hash32(docs[k].content.value) == h
    decreases |docs|
  {
    if docs == [] || docs[0].content.None? || Hash32(docs[0].content.value) == h then 0
    else
      var k := 1 + FirstStop(docs[1..], h);
      assert forall j :: 1 <= j < k ==> docs[j] == docs[1..][j - 1];
      k
  }

  /**
   * The search follows the order of the list: it finds the first document with the hash, and
   * throws only when a document without content comes before every match.
   */
  lemma {:induction false} FindExactFirst(docs: seq<Document>, h: int)
    ensures var k := FirstStop(docs, h);
      FindExact(docs, h) == if k == |docs| then Missing else if docs[k].content.None? then TypeError else Found(docs[k])
    decreases |docs|
  {
    if docs != [] && docs[0].content.Some? && Hash32(docs[0].content.value) != h {
      FindExactFirst(docs[1..], h);
      assert docs[1..][FirstStop(docs[1..], h)..] == docs[1 + FirstStop(docs[1..], h)..];
    }
  }

  /** The id of the document made from file `i`: `doc-${Date.now()}-${i}`. */
  function DocId(now: nat, i: nat): string {
    "doc-" + Decimal(now) + "-" + Decimal(i)
  }

  /** The file index is the part of a document id after its last '-'. */
  lemma DocIdSuffix(now: nat, i: nat)
    ensures var id := DocId(now, i);
      0 <= LastIndexOf(id, '-') && id[LastIndexOf(id, '-') + 1..] == Decimal(i)
  {
    var id, p := DocId(now, i), "doc-" + Decimal(now);
    assert id == p + "-" + Decimal(i);
    assert id[|p|] == '-';
    assert forall j :: |p| < j < |id| ==> id[j] == Decimal(i)[j - |p| - 1];
    var r := LastIndexOf(id, '-');
    assert r == |p|;
    assert id[r + 1..] == Decimal(i);
  }

  /** Documents made from different files of a batch have different ids, whatever the clock says. */
  lemma DocIdsDistinct(now1: nat, i: nat, now2: nat, j: nat)
    requires i != j
    ensures DocId(now1, i) != DocId(now2, j)
  {
    DocIdSuffix(now1, i);
    DocIdSuffix(now2, j);
    if DocId(now1, i) == DocId(now2, j) {
      DecimalInjective(i, j);
    }
  }

  /** The extracted events, each linked to the document they came from. */
  function Linked(events: seq<TimelineEvent>, docId: string): (r: seq<TimelineEvent>)
  {
    seq(|events|, k requires 0 <= k < |events| => events[k].(sourceId := Some(docId)))
  }

  /** The document `onAddDocument` receives for an accepted file. */
  function NewDocument(file: FileInput, identity: DocIdentity, docId: string, sha256: string, addedAt: string): Document {
    Document(docId,
             if identity.title != "" then identity.title else file.name,
             Some(ContentPrefix + (if identity.summary != "" then identity.summary else DefaultSummary)),
             None,
             identity.date,
             Some(if Contains(file.mimeType, "pdf") then "pdf" else "text"),
             Some(sha256),
             Some(addedAt),
             None, None, None)
  }

  /**
   * The stamping of an accepted file: its id, the title of the identity or else the file name,
   * the summary as content, pdf exactly for a MIME type containing "pdf", the digest as
   * 64 lowercase hex digits, and no Bates number, score or case yet.
   */
  lemma NewDocumentStamps(file: FileInput, identity: DocIdentity, docId: string, digest: seq<byte>, addedAt: string)
    requires |digest| == 32
    ensures var d := NewDocument(file, identity, docId, HexOfDigest(digest), addedAt);
      d.id == docId &&
      (identity.title != "" ==> d.title == identity.title) && (identity.title == "" ==> d.title == file.name) &&
      d.content.Some? && StartsWith(d.content.value, ContentPrefix) &&
      (d.docType == Some("pdf") <==> Contains(file.mimeType, "pdf")) &&
      (d.docType == Some("text") <==> !Contains(file.mimeType, "pdf")) &&
      d.hash.Some? && |d.hash.value| == 64 &&
      (forall k :: 0 <= k < 64 ==> IsHexDigit(d.hash.value[k])) &&
      d.batesNumber == None && d.reliabilityScore == None && d.caseId == None
  {
    HexOfDigestDigits(digest);
    var d := NewDocument(file, identity, docId, HexOfDigest(digest), addedAt);
    assert d.content.value[..|ContentPrefix|] == ContentPrefix;
  }

  /** The batch after a file that was recorded as a duplicate of `matched`. */
  function WithDuplicate(b: Batch, file: FileInput, matched: string): Batch {
    b.(duplicates := b.duplicates + [DuplicateEntry(file.name, matched)])
  }

  /** The batch after a file whose processing threw: it is logged and skipped. */
  function WithError(b: Batch, file: FileInput): Batch {
    b.(errors := b.errors + [file.name])
  }

  /**
   * One iteration of the loop, for file number `i`: read; hash; the exact gate against the
   * listed documents and the batch; the semantic gate; extraction; the document; the hash and
   * title recorded for the rest of the batch.
   */
  function FileStep(b: Batch, file: FileInput, i: nat, docs: seq<Document>, sv: Services): Batch {
    match file.data
    case None => WithError(b, file)
    case Some(data) =>
      var h := Hash32(data);
      var lookup := FindExact(docs, h);
      if lookup.TypeError? then WithError(b, file)
      else if lookup.Found? || h in b.hashes then
        WithDuplicate(b, file, if lookup.Found? && lookup.doc.title != "" then lookup.doc.title else BatchDuplicate)
      else
        match sv.identify(data, file.mimeType, b.titles)
        case None => WithError(b, file)
        case Some(identity) =>
          if identity.isDuplicate then
            WithDuplicate(b, file, if identity.duplicateOf != "" then identity.duplicateOf else ExistingRecord)
          else
            var docId := DocId(sv.clock(i), i);
            Batch(b.drafts + Linked(sv.extract(data, file.mimeType), docId),
                  b.duplicates,
                  b.hashes + {h},
                  if identity.title != "" then b.titles + {identity.title} else b.titles,
                  b.added + [NewDocument(file, identity, docId, HexOfDigest(sv.digest(data)), sv.timestamp(i))],
                  b.errors)
  }

  /** The state after the first `n` files. */
  function Ingest(files: seq<FileInput>, n: nat, docs: seq<Document>, sv: Services): Batch
    requires n <= |files|
    decreases n
  {
    if n == 0 then EmptyBatch else FileStep(Ingest(files, n - 1, docs, sv), files[n - 1], n - 1, docs, sv)
  }

  /** The names of some files, in order. */
  function Names(files: seq<FileInput>): (r: seq<string>)
  {
    seq(|files|, k requires 0 <= k < |files| => files[k].name)
  }

  /** File `i` passes both gates and is added: it was read, no listed document and no earlier accepted file shares its hash, and the identity check neither threw nor called it a duplicate. */
  predicate Accepted(b: Batch, file: FileInput, docs: seq<Document>, sv: Services) {
    file.data.Some? &&
    FindExact(docs, Hash32(file.data.value)).Missing? &&
    Hash32(file.data.value) !in b.hashes &&
    sv.identify(file.data.value, file.mimeType, b.titles).Some? &&
    !sv.identify(file.data.value, file.mimeType, b.titles).value.isDuplicate
  }

  /** File `i` is skipped as a duplicate: its hash matches a listed document or an accepted file, or the identity check calls it a duplicate. */
  predicate Duplicate(b: Batch, file: FileInput, docs: seq<Document>, sv: Services) {
    file.data.Some? &&
    var h := Hash32(file.data.value);
    !FindExact(docs, h).TypeError? &&
    (FindExact(docs, h).Found? || h in b.hashes ||
     (sv.identify(file.data.value, file.mimeType, b.titles).Some? &&
      sv.identify(file.data.value, file.mimeType, b.titles).value.isDuplicate))
  }

  /**
   * A duplicate adds one entry, under the file's name, and changes nothing else. The entry names
   * the listed document's title (or the batch text when it has none), the batch text for a repeat
   * within the batch, or what the identity check named (or the existing-record text).
   */
  lemma DuplicateMatch(b: Batch, file: FileInput, i: nat, docs: seq<Document>, sv: Services)
    requires Duplicate(b, file, docs, sv)
    ensures var h := Hash32(file.data.value);
      var lookup, c := FindExact(docs, h), FileStep(b, file, i, docs, sv);
      var identity := sv.identify(file.data.value, file.mimeType, b.titles);
      c.drafts == b.drafts && c.hashes == b.hashes && c.titles == b.titles && c.added == b.added && c.errors == b.errors &&
      (lookup.Found? && lookup.doc.title != "" ==> c.duplicates == b.duplicates + [DuplicateEntry(file.name, lookup.doc.title)]) &&
      (lookup.Found? && lookup.doc.title == "" ==> c.duplicates == b.duplicates + [DuplicateEntry(file.name, BatchDuplicate)]) &&
      (lookup.Missing? && h in b.hashes ==> c.duplicates == b.duplicates + [DuplicateEntry(file.name, BatchDuplicate)]) &&
      (lookup.Missing? && h !in b.hashes ==>
         identity.Some? && identity.value.isDuplicate &&
         c.duplicates == b.duplicates + [DuplicateEntry(file.name,
           if identity.value.duplicateOf != "" then identity.value.duplicateOf else ExistingRecord)])
  {
  }

  /** Batch `c` extends batch `b`: every part of `b` is kept in `c`. */
  predicate Grows(b: Batch, c: Batch) {
    b.drafts <= c.drafts && b.duplicates <= c.duplicates && b.added <= c.added && b.errors <= c.errors &&
    b.hashes <= c.hashes && b.titles <= c.titles
  }

  /** Extension is transitive. */
  lemma GrowsTransitive(a: Batch, b: Batch, c: Batch)
    requires Grows(a, b) && Grows(b, c)
    ensures Grows(a, c)
  {
    PrefixTransitive(a.drafts, b.drafts, c.drafts);
    PrefixTransitive(a.duplicates, b.duplicates, c.duplicates);
    PrefixTransitive(a.added, b.added, c.added);
    PrefixTransitive(a.errors, b.errors, c.errors);
  }

  /** A file only adds to the batch: every part of the state before it is kept. */
  lemma StepGrows(b: Batch, file: FileInput, i: nat, docs: seq<Document>, sv: Services)
    ensures Grows(b, FileStep(b, file, i, docs, sv))
  {
  }

  /**
   * Every file has exactly one fate, recorded by one entry: added exactly when it passes both
   * gates, listed as a duplicate exactly when a gate matches, and otherwise logged as an error.
   */
  lemma StepFate(b: Batch, file: FileInput, i: nat, docs: seq<Document>, sv: Services)
    ensures var c := FileStep(b, file, i, docs, sv);
      (|c.added| == |b.added| + 1 <==> Accepted(b, file, docs, sv)) &&
      (|c.duplicates| == |b.duplicates| + 1 <==> Duplicate(b, file, docs, sv)) &&
      |c.added| + |c.duplicates| + |c.errors| == |b.added| + |b.duplicates| + |b.errors| + 1
  {
  }

  /** A hash (and a title) is recorded only for an added document, and an added document's hash is a new one. */
  lemma StepHashes(b: Batch, file: FileInput, i: nat, docs: seq<Document>, sv: Services)
    ensures var c := FileStep(b, file, i, docs, sv);
      (Accepted(b, file, docs, sv) ==> Hash32(file.data.value) !in b.hashes && c.hashes == b.hashes + {Hash32(file.data.value)}) &&
      (!Accepted(b, file, docs, sv) ==> c.hashes == b.hashes && c.titles == b.titles)
  {
  }

  /** The counts behind `IngestAccounts`: one more entry in all, and still one hash per added document. */
  lemma StepCounts(b: Batch, file: FileInput, i: nat, docs: seq<Document>, sv: Services)
    requires |b.hashes| == |b.added|
    ensures var c := FileStep(b, file, i, docs, sv);
      |c.added| + |c.duplicates| + |c.errors| == |b.added| + |b.duplicates| + |b.errors| + 1 &&
      |c.hashes| == |c.added|
  {
    StepFate(b, file, i, docs, sv);
    StepHashes(b, file, i, docs, sv);
  }

  /** After the first `n` files: each of them has been counted once, and the batch holds one hash per added document. */
  lemma {:induction false} IngestAccounts(files: seq<FileInput>, n: nat, docs: seq<Document>, sv: Services)
    requires n <= |files|
    ensures var b := Ingest(files, n, docs, sv);
      |b.added| + |b.duplicates| + |b.errors| == n && |b.hashes| == |b.added|
    decreases n
  {
    if n > 0 {
      var b := Ingest(files, n - 1, docs, sv);
      IngestAccounts(files, n - 1, docs, sv);
      StepCounts(b, files[n - 1], n - 1, docs, sv);
    }
  }

  /** The batch state only grows from one file to the next. */
  lemma {:induction false} IngestGrows(files: seq<FileInput>, m: nat, n: nat, docs: seq<Document>, sv: Services)
    requires m <= n <= |files|
    ensures Grows(Ingest(files, m, docs, sv), Ingest(files, n, docs, sv))
    decreases n - m
  {
    if m < n {
      var a, p := Ingest(files, m, docs, sv), Ingest(files, n - 1, docs, sv);
      IngestGrows(files, m, n - 1, docs, sv);
      StepGrows(p, files[n - 1], n - 1, docs, sv);
      GrowsTransitive(a, p, Ingest(files, n, docs, sv));
    }
  }

  /** A prefix of a prefix is a prefix. */
  lemma PrefixTransitive<T>(a: seq<T>, b: seq<T>, c: seq<T>)
    requires a <= b && b <= c
    ensures a <= c
  {
    assert c[..|a|] == b[..|a|];
  }

  /**
   * A later file whose content hashes like an earlier accepted file is listed as a duplicate
   * "Duplicate in current batch" and changes nothing else, whether or not the contents are equal.
   */
  lemma RepeatIsBatchDuplicate(files: seq<FileInput>, j: nat, i: nat, docs: seq<Document>, sv: Services)
    requires j < i < |files|
    requires Accepted(Ingest(files, j, docs, sv), files[j], docs, sv)
    requires files[i].data.Some? && Hash32(files[i].data.value) == Hash32(files[j].data.value)
    ensures Ingest(files, i + 1, docs, sv) == WithDuplicate(Ingest(files, i, docs, sv), files[i], BatchDuplicate)
  {
    StepHashes(Ingest(files, j, docs, sv), files[j], j, docs, sv);
    IngestGrows(files, j + 1, i, docs, sv);
  }

  /** Two files with different contents, "Aa" then "BB": the second is listed as a duplicate of the first. */
  lemma CollisionIsBatchDuplicate(first: FileInput, second: FileInput, sv: Services)
    requires first.data == Some("Aa") && second.data == Some("BB")
    requires sv.identify("Aa", first.mimeType, {}).Some? && !sv.identify("Aa", first.mimeType, {}).value.isDuplicate
    ensures var b := Ingest([first, second], 2, [], sv);
      |b.added| == 1 && b.duplicates == [DuplicateEntry(second.name, BatchDuplicate)]
  {
    var files := [first, second];
    HashCollision();
    assert Ingest(files, 0, [], sv) == EmptyBatch;
    assert Accepted(EmptyBatch, first, [], sv);
    RepeatIsBatchDuplicate(files, 0, 1, [], sv);
  }

  /**
   * A listing whose first document carries no content (as the metadata store returns them)
   * makes the exact-match search throw for every file read: nothing is added, nothing is a
   * duplicate, and every file in turn is logged as an error.
   */
  lemma {:induction false} MetadataListingRejectsAll(files: seq<FileInput>, n: nat, docs: seq<Document>, sv: Services)
    requires n <= |files| && docs != [] && docs[0].content.None?
    ensures Ingest(files, n, docs, sv) == EmptyBatch.(errors := Names(files[..n]))
    decreases n
  {
    if n > 0 {
      MetadataListingRejectsAll(files, n - 1, docs, sv);
      assert Names(files[..n]) == Names(files[..n - 1]) + [files[n - 1].name];
    }
  }

  /** The ids the first `n` files are given when added: `doc-<clock>-<j>` for each `j < n`. */
  function FileIds(n: nat, sv: Services): (r: set<string>)
    ensures forall j :: 0 <= j < n ==> DocId(sv.clock(j), j) in r
    decreases n
  {
    if n == 0 then {} else FileIds(n - 1, sv) + {DocId(sv.clock(n - 1), n - 1)}
  }

  /** A file at or after `n` is given an id that none of the first `n` files is given. */
  lemma {:induction false} FileIdsFresh(n: nat, k: nat, sv: Services)
    requires n <= k
    ensures DocId(sv.clock(k), k) !in FileIds(n, sv)
    decreases n
  {
    if n > 0 {
      FileIdsFresh(n - 1, k, sv);
      DocIdsDistinct(sv.clock(n - 1), n - 1, sv.clock(k), k);
    }
  }

  /** Every id of an added document is `doc-<clock>-<j>` for a file `j` among the first `n`. */
  predicate IdsFromFiles(added: seq<Document>, n: nat, sv: Services) {
    forall m :: 0 <= m < |added| ==> added[m].id in FileIds(n, sv)
  }

  /** No two documents share an id. */
  predicate DistinctIds(docs: seq<Document>) {
    forall k, l :: 0 <= k < l < |docs| ==> docs[k].id != docs[l].id
  }

  /** Every draft links to one of the added documents. */
  predicate DraftsLinked(drafts: seq<TimelineEvent>, added: seq<Document>) {
    forall k :: 0 <= k < |drafts| ==>
      drafts[k].sourceId.Some? && exists m :: 0 <= m < |added| && added[m].id == drafts[k].sourceId.value
  }

  /**
   * What an accepted file contributes: one document with id `doc-<clock>-<i>` and the
   * extracted events linked to that id (none when extraction fails); any other file adds
   * neither.
   */
  lemma StepContributes(b: Batch, file: FileInput, i: nat, docs: seq<Document>, sv: Services)
    ensures var c, id := FileStep(b, file, i, docs, sv), DocId(sv.clock(i), i);
      if Accepted(b, file, docs, sv) then
        |c.added| == |b.added| + 1 && c.added[..|b.added|] == b.added && c.added[|b.added|].id == id &&
        c.drafts == b.drafts + Linked(sv.extract(file.data.value, file.mimeType), id)
      else
        c.added == b.added && c.drafts == b.drafts
  {
    var c := FileStep(b, file, i, docs, sv);
    if Accepted(b, file, docs, sv) {
      assert c.added[..|b.added|] == b.added;
    }
  }

  /** Adding the document of file `n` and its linked events keeps ids distinct and drafts linked. */
  lemma LinksExtended(added: seq<Document>, drafts: seq<TimelineEvent>, added': seq<Document>, events: seq<TimelineEvent>, n: nat, sv: Services)
    requires IdsFromFiles(added, n, sv) && DistinctIds(added) && DraftsLinked(drafts, added)
    requires |added'| == |added| + 1 && added'[..|added|] == added && added'[|added|].id == DocId(sv.clock(n), n)
    ensures var drafts' := drafts + Linked(events, DocId(sv.clock(n), n));
      IdsFromFiles(added', n + 1, sv) && DistinctIds(added') && DraftsLinked(drafts', added')
  {
    var id := DocId(sv.clock(n), n);
    var drafts' := drafts + Linked(events, id);
    FileIdsFresh(n, n, sv);
    forall m | 0 <= m < |added| ensures added'[m] == added[m] && added'[m].id != id {
      assert added'[m] == added'[..|added|][m];
    }
    forall k, l | 0 <= k < l < |added'| ensures added'[k].id != added'[l].id {
      if l < |added| {
        assert added'[k] == added[k] && added'[l] == added[l];
      }
    }
    forall k | 0 <= k < |drafts'|
      ensures drafts'[k].sourceId.Some? && exists m :: 0 <= m < |added'| && added'[m].id == drafts'[k].sourceId.value
    {
      if k < |drafts| {
        var m :| 0 <= m < |added| && added[m].id == drafts[k].sourceId.value;
        assert added'[m] == added[m];
      } else {
        assert drafts'[k].sourceId == Some(id) && added'[|added|].id == id;
      }
    }
  }

  /** The batch's documents come from the first `n` files, have distinct ids, and its drafts link to them. */
  predicate LinksHold(b: Batch, n: nat, sv: Services) {
    IdsFromFiles(b.added, n, sv) && DistinctIds(b.added) && DraftsLinked(b.drafts, b.added)
  }

  /** File `i` keeps ids distinct and drafts linked. */
  lemma StepLinks(b: Batch, file: FileInput, i: nat, docs: seq<Document>, sv: Services)
    requires LinksHold(b, i, sv)
    ensures LinksHold(FileStep(b, file, i, docs, sv), i + 1, sv)
  {
    var c := FileStep(b, file, i, docs, sv);
    StepContributes(b, file, i, docs, sv);
    if Accepted(b, file, docs, sv) {
      LinksExtended(b.added, b.drafts, c.added, sv.extract(file.data.value, file.mimeType), i, sv);
    }
  }

  /**
   * The documents of a batch have pairwise distinct ids, whatever the clock reads, and every
   * extracted event's `sourceId` is the id of the document it was extracted from.
   */
  lemma {:induction false} IngestLinks(files: seq<FileInput>, n: nat, docs: seq<Document>, sv: Services)
    requires n <= |files|
    ensures LinksHold(Ingest(files, n, docs, sv), n, sv)
    decreases n
  {
    if n > 0 {
      IngestLinks(files, n - 1, docs, sv);
      StepLinks(Ingest(files, n - 1, docs, sv), files[n - 1], n - 1, docs, sv);
    }
  }

  // ---------------------------------------------------------------------------------------
  // The loop as the component runs it

  /** `documents.find(d => simpleHash(d.content) === h)`, scanning in order. */
  method FindExactMatch(docs: seq<Document>, h: int) returns (r: Lookup)
    ensures r == FindExact(docs, h)
  {
    var k := 0;
    while k < |docs|
      invariant 0 <= k <= |docs|
      invariant FindExact(docs[k..], h) == FindExact(docs, h)
    {
      assert docs[k..][1..] == docs[k + 1..];
      var d := docs[k];
      if d.content.None? {
        return TypeError;
      }
      var dh := SimpleHash(d.content.value);
      if dh == h {
        return Found(d);
      }
      k := k + 1;
    }
    return Missing;
  }

  /** The body of the loop for file number `i`; an early `return` is a `continue` or a caught exception. */
  method ProcessFile(b: Batch, file: FileInput, i: nat, docs: seq<Document>, sv: Services) returns (next: Batch)
    ensures next == FileStep(b, file, i, docs, sv)
  {
    if file.data.None? {
      return WithError(b, file);
    }
    var data := file.data.value;
    var newDocHash := SimpleHash(data);
    var sha256 := HexOfDigest(sv.digest(data));
    var globalExactMatch := FindExactMatch(docs, newDocHash);
    if globalExactMatch.TypeError? {
      return WithError(b, file);
    }
    var batchExactMatch := newDocHash in b.hashes;
    if globalExactMatch.Found? || batchExactMatch {
      var matched := if globalExactMatch.Found? && globalExactMatch.doc.title != "" then globalExactMatch.doc.title else BatchDuplicate;
      return WithDuplicate(b, file, matched);
    }
    var reply := sv.identify(data, file.mimeType, b.titles);
    if reply.None? {
      return WithError(b, file);
    }
    var identity := reply.value;
    if identity.isDuplicate {
      return WithDuplicate(b, file, if identity.duplicateOf != "" then identity.duplicateOf else ExistingRecord);
    }
    var docId := DocId(sv.clock(i), i);
    var events := Linked(sv.extract(data, file.mimeType), docId);
    var doc := NewDocument(file, identity, docId, sha256, sv.timestamp(i));
    var titles := if identity.title != "" then b.titles + {identity.title} else b.titles;
    next := Batch(b.drafts + events, b.duplicates, b.hashes + {newDocHash}, titles, b.added + [doc], b.errors);
  }

  /** The `for` loop of `handleFileUpload`: the files one after another, in order. */
  method ProcessFiles(files: seq<FileInput>, documents: seq<Document>, sv: Services) returns (batch: Batch)
    ensures batch == Ingest(files, |files|, documents, sv)
  {
    batch := EmptyBatch;
    for i := 0 to |files|
      invariant batch == Ingest(files, i, documents, sv)
    {
      batch := ProcessFile(batch, files[i], i, documents, sv);
    }
  }

  // ---------------------------------------------------------------------------------------
  // Editing and committing the drafts

  /** `/\d{4}-\d{2}-\d{2}/` matching at position `i`. */
  predicate IsoDateAt(s: string, i: nat)
    requires i + 10 <= |s|
  {
    IsDigit(s[i]) && IsDigit(s[i + 1]) && IsDigit(s[i + 2]) && IsDigit(s[i + 3]) && s[i + 4] == '-' &&
    IsDigit(s[i + 5]) && IsDigit(s[i + 6]) && s[i + 7] == '-' && IsDigit(s[i + 8]) && IsDigit(s[i + 9])
  }

  /** `value.match(/\d{4}-\d{2}-\d{2}/)` is truthy: the search tries each start position from the left. */
  predicate MatchesIsoDate(s: string)
    decreases |s|
  {
    |s| >= 10 && (IsoDateAt(s, 0) || MatchesIsoDate(s[1..]))
  }

  /** The search succeeds exactly when some position of the value starts a date. */
  lemma {:induction false} MatchesIsoDateSomewhere(s: string)
    ensures MatchesIsoDate(s) <==> exists i :: 0 <= i && i + 10 <= |s| && IsoDateAt(s, i)
    decreases |s|
  {
    if |s| >= 10 {
      MatchesIsoDateSomewhere(s[1..]);
      forall i | 0 <= i && i + 11 <= |s| ensures IsoDateAt(s[1..], i) <==> IsoDateAt(s, i + 1) {
        assert s[1..][i..i + 10] == s[i + 1..i + 11];
      }
      if exists i :: 0 <= i && i + 10 <= |s| && IsoDateAt(s, i) {
        var i :| 0 <= i && i + 10 <= |s| && IsoDateAt(s, i);
        if i > 0 {
          assert IsoDateAt(s[1..], i - 1);
        }
      }
    }
  }

  /** The fields the review form edits. */
  datatype Field = DateField | TitleField | CauseField | EffectField | LegalSignificanceField | ClaimField | SourceCitationField

  /** One `onChange` of the review form: the field and its new text. */
  datatype Edit = Edit(field: Field, value: string)

  /** `{ ...d, [field]: value }` */
  function Assign(d: TimelineEvent, f: Field, v: string): TimelineEvent {
    match f
    case DateField => d.(date := v)
    case TitleField => d.(title := v)
    case CauseField => d.(cause := v)
    case EffectField => d.(effect := v)
    case LegalSignificanceField => d.(legalSignificance := v)
    case ClaimField => d.(claim := v)
    case SourceCitationField => d.(sourceCitation := v)
  }

  /** A draft after an edit: the field set, and the clarification resolved when a date containing a full date is typed. */
  function Edited(d: TimelineEvent, e: Edit): TimelineEvent {
    var u := Assign(d, e.field, e.value);
    if e.field == DateField && MatchesIsoDate(e.value) then u.(needsClarification := false, clarificationQuestion := None) else u
  }

  /**
   * An edit sets exactly its field; the clarification flag and question are cleared exactly
   * when the edit is to the date and the new value contains a `dddd-dd-dd` date, and are
   * kept otherwise; nothing else changes.
   */
  lemma EditedFields(d: TimelineEvent, e: Edit)
    ensures var r, resolves := Edited(d, e), e.field == DateField && exists i :: 0 <= i && i + 10 <= |e.value| && IsoDateAt(e.value, i);
      r.date == (if e.field == DateField then e.value else d.date) &&
      r.title == (if e.field == TitleField then e.value else d.title) &&
      r.cause == (if e.field == CauseField then e.value else d.cause) &&
      r.effect == (if e.field == EffectField then e.value else d.effect) &&
      r.legalSignificance == (if e.field == LegalSignificanceField then e.value else d.legalSignificance) &&
      r.claim == (if e.field == ClaimField then e.value else d.claim) &&
      r.sourceCitation == (if e.field == SourceCitationField then e.value else d.sourceCitation) &&
      r.id == d.id && r.relief == d.relief && r.sourceId == d.sourceId && r.caseId == d.caseId &&
      r.needsClarification == (d.needsClarification && !resolves) &&
      r.clarificationQuestion == (if resolves then None else d.clarificationQuestion)
  {
    MatchesIsoDateSomewhere(e.value);
  }

  /** Repeating an edit changes nothing more. */
  lemma EditedIdempotent(d: TimelineEvent, e: Edit)
    ensures Edited(Edited(d, e), e) == Edited(d, e)
  {
  }

  /** `!d.needsClarification && d.date`: a draft that may be committed. */
  predicate Ready(d: TimelineEvent) {
    !d.needsClarification && d.date != ""
  }

  /** `drafts.filter(d => !d.needsClarification && d.date)` */
  function ValidEvents(drafts: seq<TimelineEvent>): (r: seq<TimelineEvent>)
    ensures |r| <= |drafts|
    decreases |drafts|
  {
    if drafts == [] then [] else (if Ready(drafts[0]) then [drafts[0]] else []) + ValidEvents(drafts[1..])
  }

  /** Every draft is ready. */
  predicate AllReady(drafts: seq<TimelineEvent>) {
    forall k :: 0 <= k < |drafts| ==> Ready(drafts[k])
  }

  /** All drafts are ready exactly when the first one is and all the others are. */
  lemma AllReadyCons(drafts: seq<TimelineEvent>)
    requires drafts != []
    ensures AllReady(drafts) <==> Ready(drafts[0]) && AllReady(drafts[1..])
  {
    assert forall k :: 1 <= k < |drafts| ==> drafts[1..][k - 1] == drafts[k];
  }

  /** The filter keeps every draft exactly when every draft is ready, and then it is the whole list. */
  lemma {:induction false} ValidEventsAll(drafts: seq<TimelineEvent>)
    ensures |ValidEvents(drafts)| == |drafts| <==> AllReady(drafts)
    ensures AllReady(drafts) ==> ValidEvents(drafts) == drafts
    decreases |drafts|
  {
    if drafts != [] {
      ValidEventsAll(drafts[1..]);
      AllReadyCons(drafts);
    }
  }

  /** What the panel shows: the entry form or the review list. */
  datatype Mode = InputMode | ReviewMode

  /** The intake panel's state: the drafts under review, the duplicate summary, the view and the text box. */
  class IntakePanel {
    var parsedDrafts: seq<TimelineEvent>
    var duplicateSummary: seq<DuplicateEntry>
    var mode: Mode
    var inputText: string

    /** A freshly mounted panel. */
    constructor()
      ensures parsedDrafts == [] && duplicateSummary == [] && mode == InputMode && inputText == ""
    {
      parsedDrafts := [];
      duplicateSummary := [];
      mode := InputMode;
      inputText := "";
    }

    /**
     * `handleFileUpload`: nothing for an empty selection; otherwise the files in order, the
     * batch's events appended to the drafts, the duplicate summary replaced, and the review
     * list shown. `added` are the `onAddDocument` calls, `logged` the files that failed.
     */
    method HandleFileUpload(files: seq<FileInput>, documents: seq<Document>, sv: Services)
      returns (added: seq<Document>, logged: seq<string>)
      modifies this
      ensures files == [] ==> (added == [] && logged == [] &&
        parsedDrafts == old(parsedDrafts) && duplicateSummary == old(duplicateSummary) && mode == old(mode))
      ensures files != [] ==> (var b := Ingest(files, |files|, documents, sv);
        added == b.added && logged == b.errors &&
        parsedDrafts == old(parsedDrafts) + b.drafts && duplicateSummary == b.duplicates && mode == ReviewMode)
      ensures inputText == old(inputText)
    {
      if |files| == 0 {
        return [], [];
      }
      duplicateSummary := [];
      var batch := ProcessFiles(files, documents, sv);
      parsedDrafts := parsedDrafts + batch.drafts;
      if |batch.duplicates| > 0 {
        duplicateSummary := batch.duplicates;
      }
      mode := ReviewMode;
      added, logged := batch.added, batch.errors;
    }

    /** `handleUpdateDraft(index, field, value)`: a copy of the drafts with the one draft edited. */
    method HandleUpdateDraft(index: nat, edit: Edit)
      requires index < |parsedDrafts|
      modifies this
      ensures parsedDrafts == old(parsedDrafts)[index := Edited(old(parsedDrafts)[index], edit)]
      ensures duplicateSummary == old(duplicateSummary) && mode == old(mode) && inputText == old(inputText)
    {
      var updated := parsedDrafts;
      updated := updated[index := Assign(updated[index], edit.field, edit.value)];
      if edit.field == DateField && MatchesIsoDate(edit.value) {
        updated := updated[index := updated[index].(needsClarification := false)];
        updated := updated[index := updated[index].(clarificationQuestion := None)];
      }
      parsedDrafts := updated;
    }

    /**
     * `handleCommit`: all or nothing. When every draft is ready they are all handed to
     * `onAddEvents` and the panel is reset; otherwise nothing is committed and nothing changes.
     */
    method HandleCommit() returns (committed: Option<seq<TimelineEvent>>)
      modifies this
      ensures AllReady(old(parsedDrafts)) ==>
        committed == Some(old(parsedDrafts)) &&
        parsedDrafts == [] && inputText == "" && duplicateSummary == [] && mode == InputMode
      ensures !AllReady(old(parsedDrafts)) ==>
        committed == None &&
        parsedDrafts == old(parsedDrafts) && inputText == old(inputText) &&
        duplicateSummary == old(duplicateSummary) && mode == old(mode)
    {
      var validEvents := ValidEvents(parsedDrafts);
      ValidEventsAll(parsedDrafts);
      if |validEvents| != |parsedDrafts| {
        return None;
      }
      committed := Some(validEvents);
      parsedDrafts := [];
      inputText := "";
      duplicateSummary := [];
      mode := InputMode;
    }
  }
}

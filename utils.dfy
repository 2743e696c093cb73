/**
 * The tolerant JSON reader `safeParseJSON` and the retry wrapper `generateWithRetry`.
 * `JSON.parse` is an oracle: a function telling, for each string, whether it parses and,
 * if not, the message of the SyntaxError it throws.
 */
module Utils {
  import opened Text

  /** What `JSON.parse` does with one string. */
  datatype ParserReply = Accepts | Rejects(message: string)

  /** A value `safeParseJSON` returns: JavaScript `null`, or what `JSON.parse` made of `source`. */
  datatype JsonValue = NullValue | ParsedFrom(source: string)

  /** `safeParseJSON` either returns a value or throws the error of parsing the cleaned text. */
  datatype SafeParse = Returned(value: JsonValue) | Threw(message: string)

  /** The closing sequences tried after a failed parse, in order. */
  const Closers: seq<string> := ["\"", "}", "]", "\"}", "\"]", "]}", "\"}}", "\"}]"]

  /** The fence markers removed before parsing, in the order the two replacements run. */
  const JsonFence: string := "```json"
  const Fence: string := "```"

  // The global regex replacement of `tag` followed by `\s*` with the empty string: every
  // leftmost occurrence of `tag`, with the white space after it, removed.
  function RemoveFence(s: string, tag: string): (r: string)
    requires tag != []
    ensures |r| <= |s|
    decreases |s|
  {
    if StartsWith(s, tag) then RemoveFence(TrimStart(s[|tag|..]), tag)
    else if s == [] then []
    else [s[0]] + RemoveFence(s[1..], tag)
  }

  /** The `cleaned` text: both fence replacements, then `trim()`. */
  function StripFences(text: string): (cleaned: string)
    ensures cleaned == [] || (!IsJsSpace(cleaned[0]) && !IsJsSpace(cleaned[|cleaned| - 1]))
    ensures !Contains(cleaned, Fence)
  {
    var once := RemoveFence(text, JsonFence);
    var r := RemoveFence(once, Fence);
    NoFenceAfterRemoval(once);
    ContainsTrim(r, Fence);
    Trim(r)
  }

  /** Text before the first backtick is kept as it is: only fences and the white space after them go. */
  lemma {:induction false} RemoveFenceKeepsPlain(a: string, b: string, tag: string)
    requires tag != [] && forall i :: 0 <= i < |a| ==> a[i] != tag[0]
    ensures RemoveFence(a + b, tag) == a + RemoveFence(b, tag)
    decreases |a|
  {
    if a != [] {
      assert !StartsWith(a + b, tag) by {
        if |tag| <= |a + b| {
          assert (a + b)[..|tag|][0] == a[0];
        }
      }
      var s := a + b;
      assert s[0] == a[0] && s[1..] == a[1..] + b;
      assert RemoveFence(s, tag) == [a[0]] + RemoveFence(a[1..] + b, tag);
      RemoveFenceKeepsPlain(a[1..], b, tag);
      assert [a[0]] + (a[1..] + RemoveFence(b, tag)) == a + RemoveFence(b, tag);
    } else {
      assert a + b == b;
    }
  }

  /** Text without a backtick is only trimmed. */
  lemma StripFencesPlain(text: string)
    requires forall i :: 0 <= i < |text| ==> text[i] != '`'
    ensures StripFences(text) == Trim(text)
  {
    RemoveFenceKeepsPlain(text, [], JsonFence);
    RemoveFenceKeepsPlain(text, [], Fence);
    assert text + [] == text;
  }

  /** The closing fence is not an opening "```json" fence. */
  lemma FenceKeptByJsonFence()
    ensures RemoveFence(Fence, JsonFence) == Fence
  {
    assert !StartsWith(Fence, JsonFence);
    assert Fence[1..] == "``" && "``"[1..] == "`" && "`"[1..] == [];
    assert !StartsWith("``", JsonFence) && !StartsWith("`", JsonFence);
  }

  /** The closing fence alone is removed by the second replacement. */
  lemma FenceRemovedByFence()
    ensures RemoveFence(Fence, Fence) == []
  {
    assert StartsWith(Fence, Fence);
    assert Fence[3..] == [];
  }

  /** A tag and the white space after it are removed. */
  lemma TagHead(tag: string, w: string, x: string)
    requires tag != []
    requires forall i :: 0 <= i < |w| ==> IsJsSpace(w[i])
    requires x == [] || !IsJsSpace(x[0])
    ensures RemoveFence(tag + (w + x), tag) == RemoveFence(x, tag)
  {
    var text := tag + (w + x);
    TrimStartSpaces(w, x);
    assert RemoveFence(text, tag) == RemoveFence(TrimStart(w + x), tag) by {
      assert text[..|tag|] == tag;
      assert text[|tag|..] == w + x;
    }
  }

  /**
   * A fenced reply, "```json", white space, a body without backticks that starts with no white
   * space, and the closing "```", is cleaned to the trimmed body.
   */
  lemma StripFencesBlock(w: string, body: string)
    requires forall i :: 0 <= i < |w| ==> IsJsSpace(w[i])
    requires forall i :: 0 <= i < |body| ==> body[i] != '`'
    requires body == [] || !IsJsSpace(body[0])
    ensures StripFences(JsonFence + w + body + Fence) == Trim(body)
  {
    var text := JsonFence + w + body + Fence;
    var once := RemoveFence(text, JsonFence);
    assert once == body + Fence by {
      assert text == JsonFence + (w + (body + Fence));
      assert body + Fence == [] || !IsJsSpace((body + Fence)[0]);
      TagHead(JsonFence, w, body + Fence);
      RemoveFenceKeepsPlain(body, Fence, JsonFence);
      FenceKeptByJsonFence();
    }
    assert RemoveFence(once, Fence) == body by {
      RemoveFenceKeepsPlain(body, Fence, Fence);
      FenceRemovedByFence();
      assert body + [] == body;
    }
  }

  /** A result that begins with a backtick comes from a string that does. */
  lemma {:induction false} FirstTick(s: string)
    requires |RemoveFence(s, Fence)| >= 1 && RemoveFence(s, Fence)[0] == '`'
    ensures |s| >= 1 && s[0] == '`'
  {
    if StartsWith(s, Fence) {
      assert s[0] == s[..3][0] == Fence[0];
    } else if s != [] {
      assert RemoveFence(s, Fence) == [s[0]] + RemoveFence(s[1..], Fence);
    }
  }

  /** A result that begins with two backticks comes from a string that does. */
  lemma {:induction false} TwoTicks(s: string)
    requires StartsWith(RemoveFence(s, Fence), "``")
    ensures StartsWith(s, "``")
  {
    if StartsWith(s, Fence) {
      assert s[..3] == Fence;
      assert s[..2] == Fence[..2];
    } else {
      var r, t := RemoveFence(s, Fence), RemoveFence(s[1..], Fence);
      assert r == [s[0]] + t;
      assert r[0] == '`' && r[1] == '`' by {
        assert r[..2] == "``";
        assert r[0] == r[..2][0] && r[1] == r[..2][1];
      }
      assert |t| >= 1 && t[0] == r[1];
      FirstTick(s[1..]);
      assert s[..2] == [s[0], s[1..][0]];
    }
  }

  /** A fence at the head of `[s[0]] + RemoveFence(s[1..], Fence)` was a fence at the head of `s`. */
  lemma {:induction false} HeadFence(s: string)
    requires s != []
    ensures StartsWith([s[0]] + RemoveFence(s[1..], Fence), Fence) ==> StartsWith(s, Fence)
  {
    var tail := RemoveFence(s[1..], Fence);
    var r := [s[0]] + tail;
    if StartsWith(r, Fence) {
      assert s[0] == '`' by {
        assert r[0] == r[..3][0];
      }
      assert StartsWith(tail, "``") by {
        assert tail[..2] == r[..3][1..];
      }
      TwoTicks(s[1..]);
      assert s[..3] == Fence by {
        assert s[..3] == [s[0]] + s[1..][..2];
      }
    }
  }

  /** The second replacement leaves no fence behind, though removals join the text around them. */
  lemma {:induction false} NoFenceAfterRemoval(s: string)
    ensures !Contains(RemoveFence(s, Fence), Fence)
    decreases |s|
  {
    if StartsWith(s, Fence) {
      NoFenceAfterRemoval(TrimStart(s[|Fence|..]));
    } else if s != [] {
      var tail := RemoveFence(s[1..], Fence);
      var r := [s[0]] + tail;
      NoFenceAfterRemoval(s[1..]);
      HeadFence(s);
      assert r[1..] == tail;
    }
  }

  /** The characters a salvage may end at. */
  predicate IsCutChar(c: char) {
    c == ',' || c == '}' || c == ']'
  }

  /** `Math.max` of the three `lastIndexOf` positions of `,`, `}` and `]`; -1 when none occurs. */
  function CutPoint(cleaned: string): (r: int)
    ensures -1 <= r < |cleaned|
    ensures r >= 0 ==> IsCutChar(cleaned[r])
    ensures forall j :: r < j < |cleaned| ==> !IsCutChar(cleaned[j])
  {
    var comma, brace, bracket := LastIndexOf(cleaned, ','), LastIndexOf(cleaned, '}'), LastIndexOf(cleaned, ']');
    var m := if comma >= brace then comma else brace;
    if m >= bracket then m else bracket
  }

  /** The trimmed text up to and including the cut point, without a trailing comma. */
  function Salvage(cleaned: string, cut: int): (r: string)
    requires 0 <= cut < |cleaned|
    ensures !IsJsSpace(cleaned[cut]) && cleaned[cut] != ',' ==> r == cleaned[..cut + 1]
    ensures cleaned[cut] == ',' ==> r + [','] == TrimStart(cleaned[..cut + 1])
    ensures cleaned[cut] == ',' && !IsJsSpace(cleaned[0]) ==> r == cleaned[..cut]
  {
    var salvage := cleaned[..cut + 1];
    assert salvage[|salvage| - 1] == cleaned[cut] && salvage[0] == cleaned[0];
    assert salvage[..cut] == cleaned[..cut];
    SalvageTrim(salvage);
    var trimmed := Trim(salvage);
    if EndsWith(trimmed, ",") then trimmed[..|trimmed| - 1] else salvage
  }

  /** When a string ends in no white space, trimming it only drops white space in front. */
  lemma SalvageTrim(s: string)
    requires s != []
    ensures var t := Trim(s);
      !IsJsSpace(s[|s| - 1]) ==>
        t == TrimStart(s) && t != [] && t[..|t| - 1] + [s[|s| - 1]] == t &&
        (EndsWith(t, ",") <==> s[|s| - 1] == ',') &&
        (!IsJsSpace(s[0]) ==> t == s)
  {
    if !IsJsSpace(s[|s| - 1]) {
      TrimToNonSpaceEnd(s);
      LastChar(TrimStart(s), ',');
    }
  }

  /** `base + closer` for every closer, in order. */
  function Closed(base: string): (r: seq<string>)
  {
    seq(|Closers|, i requires 0 <= i < |Closers| => base + Closers[i])
  }

  /** Every string `safeParseJSON` hands to `JSON.parse`, in the order it tries them. */
  function Candidates(cleaned: string): (r: seq<string>)
    ensures |r| == if CutPoint(cleaned) > 0 then 17 else 9
    ensures r[0] == cleaned
  {
    [cleaned] + Closed(cleaned) + (if CutPoint(cleaned) > 0 then Closed(Salvage(cleaned, CutPoint(cleaned))) else [])
  }

  /** The position of the first candidate from `from` on that parses, or `|cands|` when none does. */
  function FirstAccepted(cands: seq<string>, parse: string -> ParserReply, from: nat): (k: nat)
    requires from <= |cands|
    ensures from <= k <= |cands|
    ensures forall j :: from <= j < k ==> parse(cands[j]).Rejects?
    ensures k < |cands| ==> parse(cands[k]).Accepts?
    decreases |cands| - from
  {
    if from == |cands| || parse(cands[from]).Accepts? then from else FirstAccepted(cands, parse, from + 1)
  }

  /** The outcome of trying `cands` in order: the first that parses, else the error of the first. */
  function Outcome(cands: seq<string>, parse: string -> ParserReply): (r: SafeParse)
    requires |cands| > 0
    ensures r.Returned? <==> exists k :: 0 <= k < |cands| && parse(cands[k]).Accepts?
    ensures r.Threw? ==> parse(cands[0]) == Rejects(r.message)
  {
    var k := FirstAccepted(cands, parse, 0);
    if k < |cands| then Returned(ParsedFrom(cands[k])) else Threw(parse(cands[0]).message)
  }

  /** The candidates tried: up to and including the first that parses, or all of them. */
  function Tried(cands: seq<string>, parse: string -> ParserReply): (tried: seq<string>)
    ensures |tried| <= |cands|
  {
    var k := FirstAccepted(cands, parse, 0);
    if k < |cands| then cands[..k + 1] else cands
  }

  /** What `safeParseJSON(text)` returns or throws. */
  function SafeParseSpec(text: string, parse: string -> ParserReply): SafeParse {
    if text == [] then Returned(NullValue) else Outcome(Candidates(StripFences(text)), parse)
  }

  /** The strings `safeParseJSON(text)` passes to `JSON.parse`, in order. */
  function Attempts(text: string, parse: string -> ParserReply): (tried: seq<string>)
    ensures |tried| <= 17
  {
    if text == [] then [] else Tried(Candidates(StripFences(text)), parse)
  }

  /** The tried candidates are a non-empty prefix, all rejected but the last, which gives the value. */
  lemma {:induction false} TriedIsPrefix(cands: seq<string>, parse: string -> ParserReply)
    requires |cands| > 0
    ensures var tried := Tried(cands, parse);
      0 < |tried| && tried == cands[..|tried|] &&
      (forall j :: 0 <= j < |tried| - 1 ==> parse(tried[j]).Rejects?) &&
      (Outcome(cands, parse).Returned? <==> parse(tried[|tried| - 1]).Accepts?) &&
      (Outcome(cands, parse).Returned? ==> Outcome(cands, parse).value == ParsedFrom(tried[|tried| - 1]))
  {
    var tried := Tried(cands, parse);
    var k := FirstAccepted(cands, parse, 0);
    if k == |cands| {
      assert cands[..|cands|] == cands;
      assert forall j :: 0 <= j < |cands| ==> parse(cands[j]).Rejects?;
    }
  }

  /**
   * At most 17 parse attempts, none for empty text; they follow the fixed order, every one but
   * the last is rejected, and a returned value is what the last attempt parsed.
   */
  lemma {:induction false} AttemptsAreCandidatePrefix(text: string, parse: string -> ParserReply)
    ensures text == [] <==> Attempts(text, parse) == []
    ensures text != [] ==>
      var tried := Attempts(text, parse);
      var cands := Candidates(StripFences(text));
      tried == cands[..|tried|] &&
      (forall j :: 0 <= j < |tried| - 1 ==> parse(tried[j]).Rejects?) &&
      (SafeParseSpec(text, parse).Returned? <==> parse(tried[|tried| - 1]).Accepts?) &&
      (SafeParseSpec(text, parse).Returned? ==> SafeParseSpec(text, parse).value == ParsedFrom(tried[|tried| - 1]))
  {
    if text != [] {
      TriedIsPrefix(Candidates(StripFences(text)), parse);
    }
  }

  /** The outcome is the first accepted candidate, or, when every one is rejected, the first one's error. */
  lemma {:induction false} OutcomeIsFirstAccepted(cands: seq<string>, parse: string -> ParserReply)
    requires |cands| > 0
    ensures match Outcome(cands, parse)
      case Returned(v) =>
        exists k :: 0 <= k < |cands| && v == ParsedFrom(cands[k]) && parse(cands[k]).Accepts? &&
                    forall j :: 0 <= j < k ==> parse(cands[j]).Rejects?
      case Threw(m) =>
        (forall j :: 0 <= j < |cands| ==> parse(cands[j]).Rejects?) && parse(cands[0]) == Rejects(m)
  {
    var k := FirstAccepted(cands, parse, 0);
    if k < |cands| {
      assert Outcome(cands, parse) == Returned(ParsedFrom(cands[k]));
    }
  }

  /**
   * The result of `safeParseJSON` is the first candidate, in the fixed order, that parses;
   * when none does, it is the error of parsing the cleaned text. Empty text gives `null`.
   */
  lemma {:induction false} SafeParseIsFirstAccepted(text: string, parse: string -> ParserReply)
    ensures text == [] ==> SafeParseSpec(text, parse) == Returned(NullValue)
    ensures text != [] ==>
      var cands := Candidates(StripFences(text));
      match SafeParseSpec(text, parse)
      case Returned(v) =>
        exists k :: 0 <= k < |cands| && v == ParsedFrom(cands[k]) && parse(cands[k]).Accepts? &&
                    forall j :: 0 <= j < k ==> parse(cands[j]).Rejects?
      case Threw(m) =>
        (forall j :: 0 <= j < |cands| ==> parse(cands[j]).Rejects?) &&
        parse(StripFences(text)) == Rejects(m)
  {
    if text != [] {
      OutcomeIsFirstAccepted(Candidates(StripFences(text)), parse);
    }
  }

  /** When the cleaned text parses, it is the value and no closer is tried. */
  lemma CleanTextWins(text: string, parse: string -> ParserReply)
    requires text != [] && parse(StripFences(text)).Accepts?
    ensures SafeParseSpec(text, parse) == Returned(ParsedFrom(StripFences(text)))
    ensures Attempts(text, parse) == [StripFences(text)]
  {
  }

  /** When `JSON.parse` rejects every string, non-empty text throws the error of the cleaned text. */
  lemma NothingParses(text: string, parse: string -> ParserReply)
    requires text != [] && forall s :: parse(s).Rejects?
    ensures SafeParseSpec(text, parse) == Threw(parse(StripFences(text)).message)
  {
  }

  /** The salvage stage is reached only with a cut point past position 0. */
  lemma {:induction false} SalvageNeedsCutPoint(text: string, parse: string -> ParserReply)
    requires text != [] && CutPoint(StripFences(text)) <= 0
    ensures SafeParseSpec(text, parse).Returned? ==>
      SafeParseSpec(text, parse).value.source in [StripFences(text)] + Closed(StripFences(text))
  {
    var cleaned := StripFences(text);
    var cands := Candidates(cleaned);
    assert cands == [cleaned] + Closed(cleaned);
    OutcomeIsFirstAccepted(cands, parse);
  }

  /** Past a prefix that is rejected throughout, the first accepted position is found in the rest. */
  lemma {:induction false} FirstAcceptedAfter(a: seq<string>, b: seq<string>, parse: string -> ParserReply, from: nat)
    requires from <= |a|
    requires forall j :: from <= j < |a| ==> parse(a[j]).Rejects?
    ensures FirstAccepted(a + b, parse, from) == |a| + FirstAccepted(b, parse, 0)
    decreases |a| - from
  {
    if from < |a| {
      assert (a + b)[from] == a[from];
      FirstAcceptedAfter(a, b, parse, from + 1);
    } else {
      FirstAcceptedShift(a, b, parse, 0);
    }
  }

  /** Searching `a + b` from `|a| + i` is searching `b` from `i`. */
  lemma {:induction false} FirstAcceptedShift(a: seq<string>, b: seq<string>, parse: string -> ParserReply, i: nat)
    requires i <= |b|
    ensures FirstAccepted(a + b, parse, |a| + i) == |a| + FirstAccepted(b, parse, i)
    decreases |b| - i
  {
    if i < |b| {
      assert (a + b)[|a| + i] == b[i];
      FirstAcceptedShift(a, b, parse, i + 1);
    }
  }

  /** A position accepted inside `a` is the first accepted one of `a + b` too. */
  lemma {:induction false} FirstAcceptedWithin(a: seq<string>, b: seq<string>, parse: string -> ParserReply, from: nat)
    requires from <= |a| && FirstAccepted(a, parse, from) < |a|
    ensures FirstAccepted(a + b, parse, from) == FirstAccepted(a, parse, from)
    decreases |a| - from
  {
    assert (a + b)[from] == a[from];
    if parse(a[from]).Rejects? {
      FirstAcceptedWithin(a, b, parse, from + 1);
    }
  }

  /** Searching `a + b`: a hit in `a` decides; otherwise the search goes on in `b`. */
  lemma {:induction false} SearchInHalves(a: seq<string>, b: seq<string>, parse: string -> ParserReply)
    ensures var ka := FirstAccepted(a, parse, 0);
      (ka < |a| ==> FirstAccepted(a + b, parse, 0) == ka && (a + b)[..ka + 1] == a[..ka + 1]) &&
      (ka == |a| ==> FirstAccepted(a + b, parse, 0) == |a| + FirstAccepted(b, parse, 0))
  {
    var ka := FirstAccepted(a, parse, 0);
    if ka < |a| {
      FirstAcceptedWithin(a, b, parse, 0);
      assert (a + b)[..ka + 1] == a[..ka + 1];
    } else {
      FirstAcceptedAfter(a, b, parse, 0);
    }
  }

  /**
   * Trying `[c] + a + b` after `c` is rejected: a hit in `a` decides; otherwise a hit in `b`;
   * otherwise every candidate is tried and the error of `c` is thrown.
   */
  lemma {:induction false} ThreeStages(c: string, a: seq<string>, b: seq<string>, parse: string -> ParserReply)
    requires parse(c).Rejects?
    ensures var ka := FirstAccepted(a, parse, 0);
      var kb := FirstAccepted(b, parse, 0);
      var cands := [c] + a + b;
      (ka < |a| ==> Outcome(cands, parse) == Returned(ParsedFrom(a[ka])) && Tried(cands, parse) == [c] + a[..ka + 1]) &&
      (ka == |a| && kb < |b| ==>
         Outcome(cands, parse) == Returned(ParsedFrom(b[kb])) && Tried(cands, parse) == [c] + a + b[..kb + 1]) &&
      (ka == |a| && kb == |b| ==>
         Outcome(cands, parse) == Threw(parse(c).message) && Tried(cands, parse) == [c] + a + b)
  {
    var ab := a + b;
    var cands := [c] + ab;
    assert [c] + a + b == cands;
    FirstAcceptedAfter([c], ab, parse, 0);
    SearchInHalves(a, b, parse);
    var ka := FirstAccepted(a, parse, 0);
    var kb := FirstAccepted(b, parse, 0);
    if ka < |a| {
      assert cands[..ka + 2] == [c] + ab[..ka + 1];
    } else {
      SearchInHalves(a + [c], b, parse);
      if kb < |b| {
        assert cands[1 + |a| + kb] == b[kb];
        assert cands[..1 + |a| + kb + 1] == [c] + a + b[..kb + 1];
      }
    }
  }

  /** One `for (const closer of closers)` loop: the position of the first closer with which `base` parses, or 8. */
  method TryClosers(base: string, parse: string -> ParserReply) returns (k: nat, ghost tried: seq<string>)
    ensures k == FirstAccepted(Closed(base), parse, 0)
    ensures tried == if k < |Closers| then Closed(base)[..k + 1] else Closed(base)
  {
    ghost var all := Closed(base);
    tried := [];
    for i := 0 to |Closers|
      invariant tried == all[..i]
      invariant forall j :: 0 <= j < i ==> parse(all[j]).Rejects?
      invariant FirstAccepted(all, parse, 0) == FirstAccepted(all, parse, i)
    {
      tried := tried + [base + Closers[i]];
      if parse(base + Closers[i]).Accepts? {
        return i, tried;
      }
    }
    assert tried == all;
    k := |Closers|;
  }

  /** The three `lastIndexOf` searches and their maximum. */
  method FindCutPoint(cleaned: string) returns (cutPoint: int)
    ensures cutPoint == CutPoint(cleaned)
  {
    var lastComma := LastIndexOf(cleaned, ',');
    var lastCloseBrace := LastIndexOf(cleaned, '}');
    var lastCloseBracket := LastIndexOf(cleaned, ']');
    var m := if lastComma >= lastCloseBrace then lastComma else lastCloseBrace;
    cutPoint := if m >= lastCloseBracket then m else lastCloseBracket;
  }

  /** `salvage` and, when its trimmed form ends with a comma, that form without the comma. */
  method SalvageText(cleaned: string, cutPoint: int) returns (cleanSalvage: string)
    requires 0 <= cutPoint < |cleaned|
    ensures cleanSalvage == Salvage(cleaned, cutPoint)
  {
    var salvage := cleaned[..cutPoint + 1];
    var trimmed := Trim(salvage);
    cleanSalvage := if EndsWith(trimmed, ",") then trimmed[..|trimmed| - 1] else salvage;
  }

  /**
   * `safeParseJSON`: strips fences, tries the cleaned text, then the cleaned text with each
   * closer, then the salvaged prefix with each closer. `tried` lists the strings passed to
   * `JSON.parse`, in order. The salvaged text, which the source recomputes in every iteration
   * of its second loop from the same `salvage`, is computed once.
   */
  method SafeParseJSON(text: string, parse: string -> ParserReply) returns (r: SafeParse, ghost tried: seq<string>)
    ensures r == SafeParseSpec(text, parse)
    ensures tried == Attempts(text, parse)
  {
    if text == [] {
      return Returned(NullValue), [];
    }
    var cleaned := StripFences(text);
    r, tried := ParseCleaned(cleaned, parse);
  }

  /** The body of `safeParseJSON` after the fences are stripped. */
  method ParseCleaned(cleaned: string, parse: string -> ParserReply) returns (r: SafeParse, ghost tried: seq<string>)
    ensures r == Outcome(Candidates(cleaned), parse)
    ensures tried == Tried(Candidates(cleaned), parse)
  {
    var first := parse(cleaned);
    if first.Accepts? {
      CleanHit(cleaned, parse);
      return Returned(ParsedFrom(cleaned)), [cleaned];
    }
    var k1, t1 := TryClosers(cleaned, parse);
    tried := [cleaned] + t1;
    if k1 < |Closers| {
      CloserHit(cleaned, parse, k1);
      return Returned(ParsedFrom(cleaned + Closers[k1])), tried;
    }
    var cutPoint := FindCutPoint(cleaned);
    if cutPoint > 0 {
      var cleanSalvage := SalvageText(cleaned, cutPoint);
      var k2, t2 := TryClosers(cleanSalvage, parse);
      SalvageHit(cleaned, parse, k2);
      tried := tried + t2;
      if k2 < |Closers| {
        return Returned(ParsedFrom(cleanSalvage + Closers[k2])), tried;
      }
    } else {
      NoCutPoint(cleaned, parse);
    }
    r := Threw(first.message);
  }

  /** Stage one: a cleaned text that parses is the value, and the only string tried. */
  lemma CleanHit(cleaned: string, parse: string -> ParserReply)
    requires parse(cleaned).Accepts?
    ensures Outcome(Candidates(cleaned), parse) == Returned(ParsedFrom(cleaned))
    ensures Tried(Candidates(cleaned), parse) == [cleaned]
  {
    var cands := Candidates(cleaned);
    assert FirstAccepted(cands, parse, 0) == 0;
    assert cands[..1] == [cleaned];
  }

  /** Stage two: after the cleaned text is rejected, the first closer that makes it parse decides. */
  lemma CloserHit(cleaned: string, parse: string -> ParserReply, k1: nat)
    requires parse(cleaned).Rejects? && k1 == FirstAccepted(Closed(cleaned), parse, 0) < |Closers|
    ensures Outcome(Candidates(cleaned), parse) == Returned(ParsedFrom(cleaned + Closers[k1]))
    ensures Tried(Candidates(cleaned), parse) == [cleaned] + Closed(cleaned)[..k1 + 1]
  {
    var rest := if CutPoint(cleaned) > 0 then Closed(Salvage(cleaned, CutPoint(cleaned))) else [];
    ThreeStages(cleaned, Closed(cleaned), rest, parse);
  }

  /**
   * Stage three: after every closer failed and with a cut point past 0, the first closer that
   * makes the salvaged text parse decides; if none does, the error of the cleaned text is thrown.
   */
  lemma SalvageHit(cleaned: string, parse: string -> ParserReply, k2: nat)
    requires parse(cleaned).Rejects? && FirstAccepted(Closed(cleaned), parse, 0) == |Closers|
    requires CutPoint(cleaned) > 0 && k2 == FirstAccepted(Closed(Salvage(cleaned, CutPoint(cleaned))), parse, 0)
    ensures k2 < |Closers| ==>
      Outcome(Candidates(cleaned), parse) == Returned(ParsedFrom(Salvage(cleaned, CutPoint(cleaned)) + Closers[k2])) &&
      Tried(Candidates(cleaned), parse) == [cleaned] + Closed(cleaned) + Closed(Salvage(cleaned, CutPoint(cleaned)))[..k2 + 1]
    ensures k2 == |Closers| ==>
      Outcome(Candidates(cleaned), parse) == Threw(parse(cleaned).message) &&
      Tried(Candidates(cleaned), parse) == [cleaned] + Closed(cleaned) + Closed(Salvage(cleaned, CutPoint(cleaned)))
  {
    ThreeStages(cleaned, Closed(cleaned), Closed(Salvage(cleaned, CutPoint(cleaned))), parse);
  }

  /** Without a cut point past 0, the failure of every closer means the error of the cleaned text. */
  lemma NoCutPoint(cleaned: string, parse: string -> ParserReply)
    requires parse(cleaned).Rejects? && FirstAccepted(Closed(cleaned), parse, 0) == |Closers|
    requires CutPoint(cleaned) <= 0
    ensures Outcome(Candidates(cleaned), parse) == Threw(parse(cleaned).message)
    ensures Tried(Candidates(cleaned), parse) == [cleaned] + Closed(cleaned)
  {
    ThreeStages(cleaned, Closed(cleaned), [], parse);
    assert [cleaned] + Closed(cleaned) + [] == [cleaned] + Closed(cleaned);
  }

  // ---------------------------------------------------------------------------------------
  // generateWithRetry

  /** A thrown API error: its optional HTTP `status` and its `message` (`""` when absent). */
  datatype ApiError = ApiError(status: StatusCode, message: string)
  datatype StatusCode = NoStatus | Status(code: int)

  /** What one `model.generateContent(params)` call does. */
  datatype ModelReply = Generated(response: string) | Raised(error: ApiError)

  /** The retry predicate: HTTP 500 or 503, or a message mentioning 503, 500 or CANCELLED. */
  predicate IsRetryable(e: ApiError) {
    e.status == Status(503) || e.status == Status(500) ||
    (e.message != [] && (Contains(e.message, "503") || Contains(e.message, "500") || Contains(e.message, "CANCELLED")))
  }

  /** The final reply and the waits (in milliseconds) made before each retry. */
  datatype RetryRun = RetryRun(outcome: ModelReply, delays: seq<int>)

  /** Call `n` raised an error the retry predicate accepts. */
  predicate RaisedRetryable(call: nat -> ModelReply, n: nat) {
    call(n).Raised? && IsRetryable(call(n).error)
  }

  /**
   * `generateWithRetry(model, params, retries)` when the call it makes first is call number
   * `attempt`; `call(n)` is what the n-th call (from 0) to `generateContent` does. Each retry is
   * made only after a retryable error and with retries left; the wait before the retry made
   * with `r` remaining is `2000 * (4 - r)` milliseconds.
   */
  function GenerateWithRetry(call: nat -> ModelReply, attempt: nat, retries: int): (run: RetryRun)
    ensures |run.delays| <= if retries > 0 then retries else 0
    ensures run.outcome == call(attempt + |run.delays|)
    ensures forall n :: attempt <= n < attempt + |run.delays| ==> RaisedRetryable(call, n)
    ensures forall j :: 0 <= j < |run.delays| ==> run.delays[j] == 2000 * (4 - (retries - j))
    ensures run.outcome.Raised? ==> !(retries - |run.delays| > 0 && IsRetryable(run.outcome.error))
    decreases if retries > 0 then retries else 0
  {
    match call(attempt)
    case Generated(response) => RetryRun(Generated(response), [])
    case Raised(error) =>
      if retries > 0 && IsRetryable(error) then
        var rest := GenerateWithRetry(call, attempt + 1, retries - 1);
        var run := RetryRun(rest.outcome, [2000 * (4 - retries)] + rest.delays);
        RetryPrepended(call, attempt, retries, rest.delays, run.delays);
        run
      else RetryRun(Raised(error), [])
  }

  /** The waits of a retried run: this one's, then those of the run from the next call. */
  lemma {:induction false} RetryPrepended(call: nat -> ModelReply, attempt: nat, retries: int, rest: seq<int>, delays: seq<int>)
    requires RaisedRetryable(call, attempt) && delays == [2000 * (4 - retries)] + rest
    requires forall n :: attempt + 1 <= n < attempt + 1 + |rest| ==> RaisedRetryable(call, n)
    requires forall j :: 0 <= j < |rest| ==> rest[j] == 2000 * (4 - (retries - 1 - j))
    ensures forall n :: attempt <= n < attempt + |delays| ==> RaisedRetryable(call, n)
    ensures forall j :: 0 <= j < |delays| ==> delays[j] == 2000 * (4 - (retries - j))
  {
    forall j | 0 <= j < |delays|
      ensures delays[j] == 2000 * (4 - (retries - j))
    {
      if j > 0 {
        assert delays[j] == rest[j - 1];
      }
    }
  }

  /** With the default of 3 retries and every attempt failing retryably: four attempts, waits 2000, 4000, 6000. */
  lemma DefaultRetrySchedule(call: nat -> ModelReply)
    requires forall n :: RaisedRetryable(call, n)
    ensures GenerateWithRetry(call, 0, 3).delays == [2000, 4000, 6000]
    ensures GenerateWithRetry(call, 0, 3).outcome == call(3)
  {
    var run := GenerateWithRetry(call, 0, 3);
    assert RaisedRetryable(call, |run.delays|);
    assert |run.delays| == 3;
    assert run.delays[0] == 2000 && run.delays[1] == 4000 && run.delays[2] == 6000;
  }

  /** A non-retryable error is rethrown at once. */
  lemma NonRetryableRethrown(call: nat -> ModelReply, retries: int)
    requires call(0).Raised? && !IsRetryable(call(0).error)
    ensures GenerateWithRetry(call, 0, retries) == RetryRun(call(0), [])
  {
  }
}

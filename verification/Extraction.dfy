/**
 Extraction of claims, by grammar and by a language model, against the independent check
 that a claim's quote is in the source where its locator says.  A hash is modelled by the
 text it is computed from.
 */
module Extraction {
  import opened Options

  datatype Modality = Possible | Likely | Asserted

  function Rank(m: Modality): nat {
    match m
    case Possible => 0
    case Likely => 1
    case Asserted => 2
  }

  datatype Claim = Claim(subject: string, predicate_: string, object_: string, positive: bool, modality: Modality,
                         start: int, end: int, quoteHash: string)

  /** The deterministic check of a claim against its source. */
  predicate LayerDOk(c: Claim, source: string) {
    0 <= c.start < c.end <= |source| && source[c.start..c.end] == c.quoteHash
  }

  /** What certainty the language of a span supports is left abstract. */
  type Inference = string -> Modality

  predicate ModalityPreserved(infer: Inference, c: Claim, source: string)
    requires LayerDOk(c, source)
  {
    Rank(c.modality) <= Rank(infer(source[c.start..c.end]))
  }

  function PreserveModality(infer: Inference, span: string, proposed: Modality): Modality {
    if Rank(proposed) < Rank(infer(span)) then proposed else infer(span)
  }

  // ------------------------------------------------------------------ substrings

  predicate OccursAt(quote: string, text: string, i: int) {
    0 <= i <= |text| - |quote| && text[i..i + |quote|] == quote
  }

  /** The first occurrence from `i` on, if any. */
  function Find(quote: string, text: string, i: nat): (r: Option<nat>)
    requires i <= |text| + 1
    ensures r.Some? ==> i <= r.value && OccursAt(quote, text, r.value)
    decreases |text| + 1 - i
  {
    if i > |text| then None
    else if OccursAt(quote, text, i) then Some(i)
    else Find(quote, text, i + 1)
  }

  lemma {:induction false} FindIsFirst(quote: string, text: string, i: nat, j: nat)
    requires i <= |text| + 1 && i <= j && OccursAt(quote, text, j)
    ensures Find(quote, text, i).Some? && Find(quote, text, i).value <= j
    decreases |text| + 1 - i
  {
    hide OccursAt;
    assert j <= |text| by { OccursInside(quote, text, j); }
    if !OccursAt(quote, text, i) {
      FindIsFirst(quote, text, i + 1, j);
    }
  }

  lemma OccursInside(quote: string, text: string, j: int)
    requires OccursAt(quote, text, j)
    ensures 0 <= j <= j + |quote| <= |text|
  {
  }

  /** How often a nonempty quote occurs, without overlaps. */
  function Count(quote: string, text: string, i: nat): nat
    requires quote != "" && i <= |text| + 1
    decreases |text| + 1 - i
  {
    match Find(quote, text, i)
    case None => 0
    case Some(j) => 1 + Count(quote, text, j + |quote|)
  }

  lemma CountZero(quote: string, text: string, i: nat)
    requires quote != "" && i <= |text| + 1
    ensures Count(quote, text, i) == 0 <==> Find(quote, text, i).None?
  {
  }

  /** Every occurrence overlaps the one at `first`, which is the first. */
  ghost predicate AllOverlap(quote: string, text: string, first: nat) {
    OccursAt(quote, text, first) && forall j :: OccursAt(quote, text, j) ==> first <= j < first + |quote|
  }

  lemma NoneBehind(quote: string, text: string)
    requires quote != "" && Count(quote, text, 0) == 1
    ensures var first := Find(quote, text, 0);
            first.Some? && first.value + |quote| <= |text| && Find(quote, text, first.value + |quote|).None?
  {
    hide Find;
    var i := Find(quote, text, 0).value;
    CountZero(quote, text, i + |quote|);
  }

  lemma CountedOnce(quote: string, text: string)
    requires quote != "" && Count(quote, text, 0) == 1
    ensures Find(quote, text, 0).Some? && AllOverlap(quote, text, Find(quote, text, 0).value)
  {
    hide Find, Count, OccursAt;
    NoneBehind(quote, text);
    var i := Find(quote, text, 0).value;
    OccursInside(quote, text, i);
    forall j | OccursAt(quote, text, j)
      ensures i <= j < i + |quote|
    {
      OccursInside(quote, text, j);
      FindIsFirst(quote, text, 0, j);
      if j >= i + |quote| {
        FindIsFirst(quote, text, i + |quote|, j);
      }
    }
  }

  lemma OverlapsCountOnce(quote: string, text: string, first: nat)
    requires quote != "" && AllOverlap(quote, text, first)
    ensures Count(quote, text, 0) == 1
  {
    OccursInside(quote, text, first);
    FindIsFirst(quote, text, 0, first);
    CountZero(quote, text, first + |quote|);
    hide OccursAt;
    assert Find(quote, text, 0) == Some(first);
    hide Find;
    assert Find(quote, text, first + |quote|).None?;
  }

  /** A count of one means that every occurrence overlaps the first; it does not mean that
      there is only one. */
  lemma CountOfOne(quote: string, text: string)
    requires quote != ""
    ensures Count(quote, text, 0) == 1 <==> exists first: nat :: AllOverlap(quote, text, first)
  {
    hide Find, AllOverlap;
    if Count(quote, text, 0) == 1 {
      CountedOnce(quote, text);
    } else {
      forall first: nat | AllOverlap(quote, text, first)
        ensures Count(quote, text, 0) == 1
      {
        OverlapsCountOnce(quote, text, first);
      }
    }
  }

  /** In "aaa" the quote "aa" is counted once and occurs twice. */
  lemma CountMissesOverlaps(text: string, quote: string)
    requires text == "aaa" && quote == "aa"
    ensures Count(quote, text, 0) == 1 && OccursAt(quote, text, 0) && OccursAt(quote, text, 1)
  {
    assert text[0..2] == quote && text[1..3] == quote;
    assert Find(quote, text, 0) == Some(0);
    assert Find(quote, text, 2).None?;
  }

  // --------------------------------------------------------- the language model

  /** A proposal as it comes: `None` stands for a field that is missing or of a wrong kind. */
  datatype Proposal = Proposal(subject: string, predicate_: string, object_: string, positive: Option<bool>,
                               modality: Option<Modality>, quote: Option<string>, start: int, end: int)

  datatype Span = Span(start: nat, end: nat)

  /** The span a proposal's quote is bound to. */
  function BoundTo(p: Proposal, source: string): (r: Option<Span>)
    ensures r.Some? ==> p.quote.Some? && r.value.start < r.value.end <= |source| &&
                        source[r.value.start..r.value.end] == p.quote.value
  {
    if 0 <= p.start < p.end <= |source| && p.quote == Some(source[p.start..p.end]) then Some(Span(p.start, p.end))
    else if p.quote.Some? && p.quote.value != "" && Count(p.quote.value, source, 0) == 1 then
      var i := Find(p.quote.value, source, 0).value;
      Some(Span(i, i + |p.quote.value|))
    else None
  }

  /** The claim made of a proposal, if it is well formed and its quote can be bound. */
  function ClaimOf(p: Proposal, source: string, infer: Inference): Option<Claim> {
    var bound := BoundTo(p, source);
    if p.positive.None? || bound.None? then None
    else
      var span := bound.value;
      var text := source[span.start..span.end];
      var proposed := if p.modality.Some? then p.modality.value else Asserted;
      Some(Claim(p.subject, p.predicate_, p.object_, p.positive.value, PreserveModality(infer, text, proposed),
                 span.start, span.end, text))
  }

  /** The claims of the proposals that survive all checks, in order. */
  function Surviving(ps: seq<Proposal>, source: string, infer: Inference, entailed: Claim -> bool): seq<Claim> {
    if ps == [] then []
    else
      var claim := ClaimOf(ps[|ps| - 1], source, infer);
      Surviving(ps[..|ps| - 1], source, infer, entailed) +
      if claim.Some? && entailed(claim.value) then [claim.value] else []
  }

  /** The span the loop settles on for a proposal, if any. */
  method Bind(p: Proposal, source: string) returns (bound: Option<Span>)
    ensures bound == BoundTo(p, source)
  {
    if 0 <= p.start < p.end <= |source| {
      if p.quote == Some(source[p.start..p.end]) { return Some(Span(p.start, p.end)); }
    }
    if p.quote.None? || p.quote.value == "" || Count(p.quote.value, source, 0) != 1 { return None; }
    var i := Find(p.quote.value, source, 0).value;
    bound := Some(Span(i, i + |p.quote.value|));
  }

  method ExtractProposals(source: string, ps: seq<Proposal>, infer: Inference, entailed: Claim -> bool)
    returns (claims: seq<Claim>, wellFormed: bool)
    ensures claims == Surviving(ps, source, infer, entailed)
    ensures wellFormed <==> forall p :: p in ps ==> p.positive.Some?
  {
    hide BoundTo, PreserveModality;
    claims, wellFormed := [], true;
    for n := 0 to |ps|
      invariant claims == Surviving(ps[..n], source, infer, entailed)
      invariant wellFormed <==> forall k :: 0 <= k < n ==> ps[k].positive.Some?
    {
      var p := ps[n];
      assert ps[..n + 1][..n] == ps[..n];
      if p.positive.None? {
        wellFormed := false;
        continue;
      }
      var bound := Bind(p, source);
      if bound.None? { continue; }
      var start, end := bound.value.start, bound.value.end;
      var modality := if p.modality.Some? then p.modality.value else Asserted;
      var text := source[start..end];
      modality := PreserveModality(infer, text, modality);
      var claim := Claim(p.subject, p.predicate_, p.object_, p.positive.value, modality, start, end, text);
      assert ClaimOf(p, source, infer) == Some(claim);
      if entailed(claim) {
        claims := claims + [claim];
      }
    }
    assert ps[..|ps|] == ps;
  }

  /** Whatever the model answers, every claim passes the independent check, and no hedged
      span becomes a more certain claim. */
  lemma {:induction false} SurvivingAreSupported(ps: seq<Proposal>, source: string, infer: Inference,
                                                 entailed: Claim -> bool)
    ensures forall c :: c in Surviving(ps, source, infer, entailed) ==>
              LayerDOk(c, source) && ModalityPreserved(infer, c, source) && entailed(c)
  {
    if ps != [] {
      SurvivingAreSupported(ps[..|ps| - 1], source, infer, entailed);
    }
  }

  // -------------------------------------------------------------- the grammar

  function Flatten(lines: seq<string>): string {
    if lines == [] then "" else Flatten(lines[..|lines| - 1]) + lines[|lines| - 1]
  }

  lemma {:induction false} LineInText(lines: seq<string>, k: nat)
    requires k < |lines|
    ensures |Flatten(lines[..k])| + |lines[k]| <= |Flatten(lines)|
    ensures Flatten(lines)[|Flatten(lines[..k])|..|Flatten(lines[..k])| + |lines[k]|] == lines[k]
    decreases |lines|
  {
    var init := lines[..|lines| - 1];
    if k < |init| {
      assert init[..k] == lines[..k] && init[k] == lines[k];
      LineInText(init, k);
    }
  }

  /** What a line of the grammar says, once stripped; reading its fields is left abstract. */
  datatype Reading = Skip | Revoke(claim: string) | Says(subject: string, predicate_: string, object_: string,
                                                         positive: bool, modality: Modality)

  /** Stripping yields a part of its line, and nothing is read from nothing. */
  ghost predicate Strips(lines: seq<string>, strip: string -> string, read: string -> Reading) {
    && read("").Skip?
    && forall line :: line in lines ==> Find(strip(line), line, 0).Some?
  }

  /** The claim that a stripped line states, when it stands at `from` in the text. */
  function ClaimAt(reading: Reading, stripped: string, from: nat): Option<Claim> {
    match reading
    case Says(subject, predicate_, object_, positive, modality) =>
      Some(Claim(subject, predicate_, object_, positive, modality, from, from + |stripped|, stripped))
    case _ => None
  }

  /** The claim a line states, when `offset` characters come before the line. */
  ghost function StatedBy(line: string, offset: nat, strip: string -> string, read: string -> Reading): Option<Claim>
    requires Find(strip(line), line, 0).Some?
  {
    ClaimAt(read(strip(line)), strip(line), offset + Find(strip(line), line, 0).value)
  }

  function Listed(claim: Option<Claim>): seq<Claim> {
    if claim.Some? then [claim.value] else []
  }

  ghost function Stated(lines: seq<string>, strip: string -> string, read: string -> Reading): seq<Claim>
    requires Strips(lines, strip, read)
  {
    if lines == [] then []
    else
      var init := lines[..|lines| - 1];
      Stated(init, strip, read) + Listed(StatedBy(lines[|lines| - 1], |Flatten(init)|, strip, read))
  }

  function RevokedBy(line: string, strip: string -> string, read: string -> Reading): seq<string> {
    match read(strip(line))
    case Revoke(id) => [id]
    case _ => []
  }

  /** The claim ids that the lines revoke, in the order of the lines. */
  function Revoked(lines: seq<string>, strip: string -> string, read: string -> Reading): seq<string> {
    if lines == [] then []
    else Revoked(lines[..|lines| - 1], strip, read) + RevokedBy(lines[|lines| - 1], strip, read)
  }

  /** A claim id is revoked exactly when a line says so, and no line says two things. */
  lemma {:induction false} RevokedExactly(lines: seq<string>, strip: string -> string, read: string -> Reading,
                                          id: string)
    ensures id in Revoked(lines, strip, read) <==> exists line :: line in lines && read(strip(line)) == Revoke(id)
    ensures |Revoked(lines, strip, read)| <= |lines|
  {
    if lines != [] {
      var init, last := lines[..|lines| - 1], lines[|lines| - 1];
      RevokedExactly(init, strip, read, id);
      assert forall line :: line in lines <==> line in init || line == last;
    }
  }

  lemma OneMoreLine(lines: seq<string>, k: nat, strip: string -> string, read: string -> Reading)
    requires Strips(lines, strip, read) && k < |lines|
    ensures Strips(lines[..k], strip, read) && Strips(lines[..k + 1], strip, read)
    ensures Find(strip(lines[k]), lines[k], 0).Some? && read("").Skip?
    ensures Stated(lines[..k + 1], strip, read) ==
            Stated(lines[..k], strip, read) + Listed(StatedBy(lines[k], |Flatten(lines[..k])|, strip, read))
    ensures Flatten(lines[..k + 1]) == Flatten(lines[..k]) + lines[k]
  {
    assert lines[k] in lines && lines[..k + 1][..k] == lines[..k];
  }

  lemma PartOfLine(text: string, start: nat, line: string, i: nat, part: string)
    requires start + |line| <= |text| && text[start..start + |line|] == line && OccursAt(part, line, i)
    ensures start + i + |part| <= |text| && text[start + i..start + i + |part|] == part
  {
    forall k | 0 <= k < |part|
      ensures text[start + i + k] == part[k]
    {
      assert line[i..i + |part|][k] == line[i + k];
      assert text[start..start + |line|][i + k] == text[start + (i + k)];
    }
  }

  /** The body of the loop: the claim of one line, `start` characters into the text. */
  method ReadLine(text: string, line: string, start: nat, strip: string -> string, read: string -> Reading)
    returns (claim: Option<Claim>, revokes: seq<string>)
    requires start + |line| <= |text| && text[start..start + |line|] == line
    requires Find(strip(line), line, 0).Some?
    ensures claim == StatedBy(line, start, strip, read)
    ensures revokes == RevokedBy(line, strip, read)
  {
    claim, revokes := None, [];
    var stripped := strip(line);
    match read(stripped) {
      case Skip =>
      case Revoke(id) => revokes := [id];
      case Says(subject, predicate_, object_, positive, modality) =>
        var i := Find(stripped, line, 0).value;
        var from, to := start + i, start + i + |stripped|;
        PartOfLine(text, start, line, i, stripped);
        claim := Some(Claim(subject, predicate_, object_, positive, modality, from, to, text[from..to]));
    }
  }

  /** The extractor's loop with its running offset.  `lines` are the pieces that splitting the
      text gives when line ends are kept. */
  method ExtractLines(text: string, lines: seq<string>, strip: string -> string, read: string -> Reading)
    returns (claims: seq<Claim>, revokes: seq<string>)
    requires Flatten(lines) == text && Strips(lines, strip, read)
    ensures claims == Stated(lines, strip, read)
    ensures revokes == Revoked(lines, strip, read)
  {
    claims, revokes := [], [];
    var offset := 0;
    for k := 0 to |lines|
      invariant offset == |Flatten(lines[..k])|
      invariant Strips(lines[..k], strip, read) && claims == Stated(lines[..k], strip, read)
      invariant revokes == Revoked(lines[..k], strip, read)
    {
      assert lines[..k + 1][..k] == lines[..k];
      hide StatedBy, Stated, Flatten, Find, RevokedBy;
      OneMoreLine(lines, k, strip, read);
      LineInText(lines, k);
      var start := offset;
      offset := offset + |lines[k]|;
      var more, revoked := ReadLine(text, lines[k], start, strip, read);
      claims, revokes := claims + Listed(more), revokes + revoked;
    }
    assert lines[..|lines|] == lines;
  }

  lemma LineIsSupported(text: string, line: string, start: nat, strip: string -> string, read: string -> Reading)
    requires start + |line| <= |text| && text[start..start + |line|] == line
    requires Find(strip(line), line, 0).Some? && read("").Skip?
    ensures var claim := StatedBy(line, start, strip, read); claim.Some? ==> LayerDOk(claim.value, text)
  {
    hide *;
    StatedAt(line, start, strip, read);
    StrippedInText(text, line, start, strip(line));
    ClaimAtIsSupported(read, strip(line), start + Find(strip(line), line, 0).value, text);
  }

  lemma StatedAt(line: string, offset: nat, strip: string -> string, read: string -> Reading)
    requires Find(strip(line), line, 0).Some?
    ensures StatedBy(line, offset, strip, read) ==
            ClaimAt(read(strip(line)), strip(line), offset + Find(strip(line), line, 0).value)
  {
    hide Find, ClaimAt;
  }

  lemma StrippedInText(text: string, line: string, start: nat, part: string)
    requires start + |line| <= |text| && text[start..start + |line|] == line
    requires Find(part, line, 0).Some?
    ensures var from := start + Find(part, line, 0).value; from + |part| <= |text| && text[from..from + |part|] == part
  {
    var i := Find(part, line, 0).value;
    assert OccursAt(part, line, i);
    hide Find, OccursAt;
    PartOfLine(text, start, line, i, part);
  }

  lemma ClaimAtIsSupported(read: string -> Reading, part: string, from: nat, text: string)
    requires from + |part| <= |text| && text[from..from + |part|] == part && read("").Skip?
    ensures var claim := ClaimAt(read(part), part, from); claim.Some? ==> LayerDOk(claim.value, text)
  {
    assert |part| == 0 ==> part == "";
  }

  lemma MembersOfBoth(claims: seq<Claim>, more: Option<Claim>, text: string)
    requires forall c :: c in claims ==> LayerDOk(c, text)
    requires more.Some? ==> LayerDOk(more.value, text)
    ensures forall c :: c in claims + Listed(more) ==> LayerDOk(c, text)
  {
    hide LayerDOk;
  }

  /** Every claim of the grammar passes the check on the whole text. */
  lemma {:induction false} StatedAreSupported(text: string, lines: seq<string>, strip: string -> string,
                                              read: string -> Reading, n: nat)
    requires Flatten(lines) == text && Strips(lines, strip, read) && n <= |lines|
    ensures Strips(lines[..n], strip, read)
    ensures forall c :: c in Stated(lines[..n], strip, read) ==> LayerDOk(c, text)
  {
    if n == 0 {
      hide Flatten, LayerDOk, StatedBy, Listed;
      assert lines[..0] == [];
    } else {
      hide *;
      StatedAreSupported(text, lines, strip, read, n - 1);
      OneMoreLine(lines, n - 1, strip, read);
      LineInText(lines, n - 1);
      LineIsSupported(text, lines[n - 1], |Flatten(lines[..n - 1])|, strip, read);
      MembersOfBoth(Stated(lines[..n - 1], strip, read),
                    StatedBy(lines[n - 1], |Flatten(lines[..n - 1])|, strip, read), text);
    }
  }
}

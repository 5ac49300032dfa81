/**
 Redaction of persisted text to a bounded fixed point. The regular expressions are left open: every
 result holds for all span finders that return proper spans, and for all bounds.
 */
module Redaction {
  import opened EventLimits
  import opened FixedPoint
  import opened Spans
  import opened Provenance
  import opened Pieces
  import opened Masking

  const PASSES: nat := 4

  /** The base, block-header and structural patterns, each as the spans it finds in a text. */
  datatype Finders = Finders(
    base: string -> seq<Span>,
    header: string -> seq<Span>,
    value: string -> seq<Span>)
  {
    ghost predicate Lawful() {
      forall t: string ::
        && Proper(base(t), |t|) && Separated(base(t), 0)
        && Proper(header(t), |t|)
        && Proper(value(t), |t|)
    }
  }

  type Patterns = f: Finders | f.Lawful() ghost witness Finders(_ => [], _ => [], _ => [])

  // ----- Whole-text vaulted references -----

  predicate IsHex(c: char) { '0' <= c <= '9' || 'a' <= c <= 'f' || 'A' <= c <= 'F' }

  const VAULT_PREFIX := "nms-secret:"
  const VAULT_LENGTH: nat := 47

  /** The text is exactly `nms-secret:` and a version 1 to 5 UUID. */
  predicate IsVaulted(text: string) {
    && |text| == VAULT_LENGTH && text[..|VAULT_PREFIX|] == VAULT_PREFIX
    && (forall i | |VAULT_PREFIX| <= i < VAULT_LENGTH ::
          if i in {19, 24, 29, 34} then text[i] == '-' else IsHex(text[i]))
    && '1' <= text[25] <= '5' && text[30] in "89abAB"
  }

  // ----- One pass -----

  /** `_secret_spans`: the base spans, merged with the header spans when there are any. */
  ghost function SecretSpans(pat: Patterns, text: string): (spans: seq<Span>)
    ensures Proper(spans, |text|) && Separated(spans, 0)
    ensures forall p :: Covers(spans, p) <==> Covers(pat.base(text), p) || Covers(pat.header(text), p)
  {
    if pat.header(text) == [] then pat.base(text)
    else
      MergedSpansFacts(pat.base(text) + pat.header(text), |text|);
      ConcatCovers(pat.base(text), pat.header(text));
      MergedSpans(pat.base(text) + pat.header(text))
  }

  /** Everything the base pattern redacts is inside one span, and a lone base span stays as it is. */
  lemma {:induction false} BaseSpansSurvive(pat: Patterns, text: string, k: nat)
    requires k < |pat.base(text)|
    requires forall h | h in pat.header(text) :: h.end <= pat.base(text)[k].start || pat.base(text)[k].end <= h.start
    ensures pat.base(text)[k] in SecretSpans(pat, text)
  {
    var base, header := pat.base(text), pat.header(text);
    if header != [] {
      var all := base + header;
      assert forall i | 0 <= i < |base| :: all[i] == base[i];
      forall i | 0 <= i < |all| && i != k ensures all[i].end <= all[k].start || all[k].end <= all[i].start {
        if |base| <= i { assert all[i] in header; }
      }
      MergedSpansKeepsApart(all, |text|, k);
    }
  }

  /** One pass of the loop in `_base_fixed_point`: redact, then bound. */
  ghost function Pass(pat: Patterns, bound: string -> string, text: string): string
  {
    bound(Redacted(text, SecretSpans(pat, text)))
  }

  ghost function PassMap(pat: Patterns, bound: string -> string, text: string): (m: Origins)
    ensures Embeds(text, Pass(pat, bound, text), m)
  {
    var spans := SecretSpans(pat, text);
    var redacted := Redacted(text, spans);
    SpliceEmbeds(text, MARKER, Cuts(text, spans), 0);
    BoundMapEmbeds(redacted, bound(redacted));
    ComposeEmbeds(text, redacted, bound(redacted), RedactMap(text, spans), BoundMap(redacted, bound(redacted)));
    Compose(BoundMap(redacted, bound(redacted)), RedactMap(text, spans))
  }

  /** A position that a pass keeps lies in no secret span, except as a leading byte-order mark. */
  lemma {:induction false} PassRedacts(pat: Patterns, bound: string -> string, text: string, k: nat)
    requires k in PassMap(pat, bound, text)
    ensures k < |text|
    ensures Covers(SecretSpans(pat, text), k) ==> text[k] == BYTE_ORDER_MARK
  {
    var spans := SecretSpans(pat, text);
    var redacted := Redacted(text, spans);
    SpliceEmbeds(text, MARKER, Cuts(text, spans), 0);
    BoundMapEmbeds(redacted, bound(redacted));
    ComposeMembers(BoundMap(redacted, bound(redacted)), RedactMap(text, spans), k);
    RedactKeeps(text, spans, k);
    if Covers(spans, k) {
      var i :| 0 <= i < |spans| && spans[i].Has(k);
      assert text[k] == BYTE_ORDER_MARK;
    }
  }

  // ----- Passes to a fixed point -----

  ghost function Step(pat: Patterns, bound: string -> string): string -> string {
    t => Pass(pat, bound, t)
  }

  /** The text after `k` passes. */
  ghost function After(pat: Patterns, bound: string -> string, text: string, k: nat): string {
    Iterate(Step(pat, bound), text, k)
  }

  ghost function OriginsAfter(pat: Patterns, bound: string -> string, text: string, k: nat): (o: Origins)
    ensures Embeds(text, After(pat, bound, text, k), o)
  {
    if k == 0 then IotaEmbeds(text); Iota(|text|)
    else
      var before := After(pat, bound, text, k - 1);
      var o, m := OriginsAfter(pat, bound, text, k - 1), PassMap(pat, bound, before);
      ComposeEmbeds(text, before, Pass(pat, bound, before), o, m);
      Compose(m, o)
  }

  /** The first pass that changes nothing, if one of the four does. */
  ghost function Rest(pat: Patterns, bound: string -> string, text: string): Option<nat> {
    Settled(Step(pat, bound), text, PASSES)
  }

  /** Four passes are made; the text settles at the first of them that changes nothing, if one does. */
  lemma {:induction false} RestExactly(pat: Patterns, bound: string -> string, text: string, k: nat)
    ensures var step := Step(pat, bound);
            Rest(pat, bound, text) == Some(k) <==>
            k < 4 && StableAt(step, text, k) && forall i | 0 <= i < k :: !StableAt(step, text, i)
  {
    SettledExactly(Step(pat, bound), text, 4, k);
  }

  method FindSecretSpans(pat: Patterns, text: string) returns (spans: seq<Span>)
    ensures spans == SecretSpans(pat, text)
  {
    spans := pat.base(text);
    var extra := pat.header(text);
    if |extra| > 0 {
      spans := MergeSpans(spans + extra);
    }
  }

  /** One tracked pass: the pieces follow the text. */
  method TrackedPass(pat: Patterns, bound: string -> string, current: string, pieces: seq<Piece>)
    returns (bounded: string, boundedPieces: seq<Piece>)
    requires Tidy(pieces) && |Expand(pieces)| == |current|
    ensures bounded == Pass(pat, bound, current)
    ensures Tidy(boundedPieces) && Indexes(PassMap(pat, bound, current), |current|)
    ensures Expand(boundedPieces) == Compose(PassMap(pat, bound, current), Expand(pieces))
  {
    var spans := FindSecretSpans(pat, current);
    var redacted, redactedPieces := RedactSpansTracked(current, pieces, spans);
    bounded := bound(redacted);
    ghost var o := Expand(pieces);
    TidyOrigins(pieces);
    SpliceCompose(o, |MARKER|, Cuts(current, spans), 0);
    SpliceEmbeds(current, MARKER, Cuts(current, spans), 0);
    assert Expand(redactedPieces) == Compose(RedactMap(current, spans), o);
    boundedPieces := BoundTracked(redacted, redactedPieces, bounded);
    ComposeAssociates(BoundMap(redacted, bounded), RedactMap(current, spans), o);
  }

  /** `_base_fixed_point`. */
  method BaseFixedPoint(pat: Patterns, bound: string -> string, text: string)
    returns (r: Option<(string, seq<Piece>)>)
    ensures r.None? <==> Rest(pat, bound, text).None?
    ensures r.Some? ==>
              var k := Rest(pat, bound, text).value;
              && r.value.0 == After(pat, bound, text, k)
              && Tidy(r.value.1) && Expand(r.value.1) == OriginsAfter(pat, bound, text, k)
  {
    var current := text;
    var pieces: seq<Piece> := if text == "" then [] else [Piece(|text|, 0)];
    assert Expand(pieces) == Iota(|text|);
    for k := 0 to PASSES
      invariant Tracks(pat, bound, text, k, current, pieces)
      invariant Rest(pat, bound, text) == SettledFrom(Step(pat, bound), text, PASSES, k)
    {
      var bounded, boundedPieces := TrackedPass(pat, bound, current, pieces);
      TracksNext(pat, bound, text, k, current, pieces, bounded, boundedPieces);
      if bounded == current {
        return Some((current, pieces));
      }
      current, pieces := bounded, boundedPieces;
    }
    return None;
  }

  /** The text after `k` passes, with the pieces that say where it came from. */
  ghost predicate Tracks(pat: Patterns, bound: string -> string, text: string, k: nat, current: string,
                         pieces: seq<Piece>) {
    current == After(pat, bound, text, k) && Tidy(pieces) && Expand(pieces) == OriginsAfter(pat, bound, text, k)
  }

  lemma {:induction false} TracksNext(pat: Patterns, bound: string -> string, text: string, k: nat, current: string,
                                      pieces: seq<Piece>, bounded: string, boundedPieces: seq<Piece>)
    requires Tracks(pat, bound, text, k, current, pieces) && bounded == Pass(pat, bound, current)
    requires Tidy(boundedPieces) && Indexes(PassMap(pat, bound, current), |current|) && |Expand(pieces)| == |current|
    requires Expand(boundedPieces) == Compose(PassMap(pat, bound, current), Expand(pieces))
    ensures Tracks(pat, bound, text, k + 1, bounded, boundedPieces)
    ensures StableAt(Step(pat, bound), text, k) <==> bounded == current
  {
  }

  lemma {:induction false} ComposeAssociates(c: Origins, b: Origins, a: Origins)
    requires Indexes(c, |b|) && Indexes(b, |a|)
    ensures Indexes(Compose(c, b), |a|)
    ensures Compose(c, Compose(b, a)) == Compose(Compose(c, b), a)
  {
  }

  // ----- Structural masking, then a second fixed point -----

  ghost function Structural(pat: Patterns, text: string): (spans: seq<Span>)
    ensures Proper(spans, |text|) && Separated(spans, 0)
    ensures forall p :: Covers(spans, p) <==> Covers(pat.value(text), p)
  {
    MergedSpansFacts(pat.value(text), |text|);
    MergedSpans(pat.value(text))
  }

  /** The text after the first fixed point, masked and bounded. */
  ghost function MaskedAfter(pat: Patterns, bound: string -> string, text: string, k: nat): string
  {
    bound(MaskedText(After(pat, bound, text, k), OriginsAfter(pat, bound, text, k), Structural(pat, text)))
  }

  ghost function TextOrMarker(pat: Patterns, bound: string -> string, text: string): string {
    match Rest(pat, bound, text)
    case None => MARKER
    case Some(j) => After(pat, bound, text, j)
  }

  ghost function RedactedResult(pat: Patterns, bound: string -> string, text: string): string {
    if IsVaulted(text) then text
    else
      match Rest(pat, bound, text)
      case None => MARKER
      case Some(k) =>
        if Structural(pat, text) == [] then After(pat, bound, text, k)
        else TextOrMarker(pat, bound, MaskedAfter(pat, bound, text, k))
  }

  /** `_redact_bounded`. */
  method RedactBounded(pat: Patterns, bound: string -> string, text: string) returns (result: string)
    ensures result == RedactedResult(pat, bound, text)
  {
    if IsVaulted(text) {
      return text;
    }
    var base := BaseFixedPoint(pat, bound, text);
    if base.None? {
      return MARKER;
    }
    var (current, pieces) := base.value;
    result := ApplyStructural(pat, bound, text, current, pieces, Rest(pat, bound, text).value);
  }

  method ApplyStructural(pat: Patterns, bound: string -> string, text: string, current: string, pieces: seq<Piece>,
                         ghost k: nat)
    returns (result: string)
    requires current == After(pat, bound, text, k)
    requires Tidy(pieces) && Expand(pieces) == OriginsAfter(pat, bound, text, k)
    ensures result == if Structural(pat, text) == [] then current
                      else TextOrMarker(pat, bound, MaskedAfter(pat, bound, text, k))
  {
    var structural := MergeSpans(pat.value(text));
    assert structural == Structural(pat, text);
    if structural == [] {
      return current;
    }
    var masked := MaskStructural(current, pieces, structural, |text|);
    var again := BaseFixedPoint(pat, bound, bound(masked));
    return if again.None? then MARKER else again.value.0;
  }

  /** Neither fixed point ran out of passes. */
  ghost predicate Completes(pat: Patterns, bound: string -> string, text: string)
  {
    match Rest(pat, bound, text)
    case None => false
    case Some(k) => Structural(pat, text) == [] || Rest(pat, bound, MaskedAfter(pat, bound, text, k)).Some?
  }

  /** With structural spans, the masked text is bounded, and the result is where four further passes settle it. */
  lemma {:induction false} SecondFixedPoint(pat: Patterns, bound: string -> string, text: string, k: nat, start: string)
    requires !IsVaulted(text) && Structural(pat, text) != [] && Rest(pat, bound, text) == Some(k)
    requires start == bound(MaskedText(After(pat, bound, text, k), OriginsAfter(pat, bound, text, k),
                                       Structural(pat, text)))
    ensures Rest(pat, bound, start).Some? ==>
              RedactedResult(pat, bound, text) == After(pat, bound, start, Rest(pat, bound, start).value)
    ensures Rest(pat, bound, start).None? ==> RedactedResult(pat, bound, text) == MARKER
  {
  }

  /** Every result is a whole vaulted reference, the bare marker, or a fixed point of bound-after-redact. */
  lemma {:induction false} ResultIsStable(pat: Patterns, bound: string -> string, text: string)
    ensures var r := RedactedResult(pat, bound, text);
            || (IsVaulted(text) && r == text)
            || (!Completes(pat, bound, text) && r == MARKER)
            || Pass(pat, bound, r) == r
  {
    if !IsVaulted(text) && Completes(pat, bound, text) {
      SettledFirst(Step(pat, bound), text, PASSES);
      if Structural(pat, text) != [] {
        SettledFirst(Step(pat, bound), MaskedAfter(pat, bound, text, Rest(pat, bound, text).value), PASSES);
      }
    }
  }

  /** A bound that never exceeds `limit` bounds every result, although one pass can lengthen a text. */
  lemma {:induction false} ResultIsBounded(pat: Patterns, bound: string -> string, text: string, limit: nat)
    requires VAULT_LENGTH <= limit
    requires forall t: string :: |bound(t)| <= limit
    ensures |RedactedResult(pat, bound, text)| <= limit
  {
    ResultIsStable(pat, bound, text);
  }

  /** No pattern changes the text: the base and header passes return it, and no structural span is found. */
  ghost predicate Untouched(pat: Patterns, text: string) {
    Redacted(text, SecretSpans(pat, text)) == text && Structural(pat, text) == []
  }

  /** A text that no pattern changes, within the bound, is its own result. */
  lemma {:induction false} UntouchedIsResult(pat: Patterns, bound: string -> string, text: string)
    requires Untouched(pat, text) && bound(text) == text
    ensures RedactedResult(pat, bound, text) == text
  {
    StableIsResult(pat, bound, text);
  }

  /** A result in which no structural span is found is redacted to itself. */
  lemma {:induction false} QuietResultIsFixed(pat: Patterns, bound: string -> string, text: string)
    requires Untouched(pat, MARKER) && bound(MARKER) == MARKER
    requires Structural(pat, RedactedResult(pat, bound, text)) == []
    ensures var r := RedactedResult(pat, bound, text); RedactedResult(pat, bound, r) == r
  {
    ResultIsStable(pat, bound, text);
    if !IsVaulted(text) && Completes(pat, bound, text) {
      StableIsResult(pat, bound, RedactedResult(pat, bound, text));
    } else if !IsVaulted(text) {
      UntouchedIsResult(pat, bound, MARKER);
    }
  }

  /** A text without structural spans that one pass leaves alone is its own result. */
  lemma {:induction false} StableIsResult(pat: Patterns, bound: string -> string, r: string)
    requires Pass(pat, bound, r) == r && Structural(pat, r) == []
    ensures RedactedResult(pat, bound, r) == r
  {
    SettledFirst(Step(pat, bound), r, PASSES);
    assert StableAt(Step(pat, bound), r, 0);
  }

  // ----- Provenance of the result -----

  /** Where each character of the result came from, through both fixed points and the masking. */
  ghost function ResultOrigins(pat: Patterns, bound: string -> string, text: string): (e: Origins)
    requires !IsVaulted(text) && Completes(pat, bound, text)
    ensures Embeds(text, RedactedResult(pat, bound, text), e)
  {
    var k := Rest(pat, bound, text).value;
    var first := OriginsAfter(pat, bound, text, k);
    if Structural(pat, text) == [] then first
    else
      var current, structural := After(pat, bound, text, k), Structural(pat, text);
      var shown := MaskedText(current, first, structural);
      var masked := MaskedAfter(pat, bound, text, k);
      var j := Rest(pat, bound, masked).value;
      MaskKeeps(current, first, structural);
      ComposeEmbeds(text, current, shown, first, MaskMap(first, structural));
      var toShown := Compose(MaskMap(first, structural), first);
      BoundMapEmbeds(shown, masked);
      ComposeEmbeds(text, shown, masked, toShown, BoundMap(shown, masked));
      var toMasked := Compose(BoundMap(shown, masked), toShown);
      ComposeEmbeds(text, masked, After(pat, bound, masked, j), toMasked, OriginsAfter(pat, bound, masked, j));
      Compose(OriginsAfter(pat, bound, masked, j), toMasked)
  }

  /**
   End to end: no surviving character comes from a structural span, and every surviving character was
   already kept by the first fixed point, so nothing that the base pipeline removed comes back.
   */
  lemma {:induction false} NothingComesBack(pat: Patterns, bound: string -> string, text: string, p: nat)
    requires !IsVaulted(text) && Completes(pat, bound, text)
    requires p in ResultOrigins(pat, bound, text)
    ensures !Covers(pat.value(text), p)
    ensures p in OriginsAfter(pat, bound, text, Rest(pat, bound, text).value)
  {
    var k := Rest(pat, bound, text).value;
    var first, structural := OriginsAfter(pat, bound, text, k), Structural(pat, text);
    if structural == [] {
      assert !Covers(structural, p);
    } else {
      var current := After(pat, bound, text, k);
      var shown := MaskedText(current, first, structural);
      var masked := MaskedAfter(pat, bound, text, k);
      var j := Rest(pat, bound, masked).value;
      MaskKeeps(current, first, structural);
      var toShown := Compose(MaskMap(first, structural), first);
      BoundMapEmbeds(shown, masked);
      var toMasked := Compose(BoundMap(shown, masked), toShown);
      ComposeMembers(OriginsAfter(pat, bound, masked, j), toMasked, p);
      ComposeMembers(BoundMap(shown, masked), toShown, p);
      MaskedSources(first, structural, p);
      ComposeMembers(MaskMap(first, structural), first, p);
    }
  }

  lemma {:induction false} PassOnlyDrops(pat: Patterns, bound: string -> string, text: string, i: nat, p: nat)
    returns (q: nat)
    requires p in OriginsAfter(pat, bound, text, i + 1)
    ensures var o := OriginsAfter(pat, bound, text, i);
            q < |o| && o[q] == p && q in PassMap(pat, bound, After(pat, bound, text, i))
  {
    var before, o := After(pat, bound, text, i), OriginsAfter(pat, bound, text, i);
    var m := PassMap(pat, bound, before);
    assert OriginsAfter(pat, bound, text, i + 1) == Compose(m, o);
    q := ComposedThrough(m, o, p);
  }

  lemma {:induction false} KeptBefore(kept: nat -> bool, i: nat, k: nat)
    requires i <= k && kept(k) && forall n: nat | kept(n + 1) :: kept(n)
    ensures kept(i)
  {
    if i < k {
      assert kept(k - 1 + 1);
      KeptBefore(kept, i, k - 1);
    }
  }

  /** A character kept through pass `k` was kept through every earlier one. */
  lemma {:induction false} OriginsShrink(pat: Patterns, bound: string -> string, text: string, i: nat, k: nat, p: nat)
    requires i <= k && p in OriginsAfter(pat, bound, text, k)
    ensures p in OriginsAfter(pat, bound, text, i)
  {
    var kept := (n: nat) => p in OriginsAfter(pat, bound, text, n);
    forall n: nat | kept(n + 1) ensures kept(n) {
      var q := PassOnlyDrops(pat, bound, text, n, p);
    }
    KeptBefore(kept, i, k);
  }

  /**
   Across all passes: wherever a surviving character stood before a pass of the first fixed point, it stood in
   no secret span found there, save as a leading byte-order mark.
   */
  lemma {:induction false} NoPassCoversIt(pat: Patterns, bound: string -> string, text: string, i: nat, p: nat)
    returns (q: nat)
    requires !IsVaulted(text) && Completes(pat, bound, text) && i < Rest(pat, bound, text).value
    requires p in ResultOrigins(pat, bound, text)
    ensures var before, o := After(pat, bound, text, i), OriginsAfter(pat, bound, text, i);
            && q < |o| == |before| && o[q] == p
            && (Covers(SecretSpans(pat, before), q) ==> before[q] == BYTE_ORDER_MARK)
  {
    NothingComesBack(pat, bound, text, p);
    OriginsShrink(pat, bound, text, i + 1, Rest(pat, bound, text).value, p);
    q := PassOnlyDrops(pat, bound, text, i, p);
    PassRedacts(pat, bound, After(pat, bound, text, i), q);
  }

  lemma {:induction false} ChangeIsAPass(pat: Patterns, bound: string -> string, text: string)
    requires Pass(pat, bound, text) != text && Rest(pat, bound, text).Some?
    ensures 0 < Rest(pat, bound, text).value
  {
    SettledFirst(Step(pat, bound), text, PASSES);
  }

  /**
   End to end for the original text: a surviving character lies in no secret span of it, save as a leading
   byte-order mark, unless the first pass already leaves the text as it is.
   */
  lemma {:induction false} NoSecretSurvives(pat: Patterns, bound: string -> string, text: string, p: nat)
    requires !IsVaulted(text) && Completes(pat, bound, text) && p in ResultOrigins(pat, bound, text)
    ensures p < |text|
    ensures Covers(SecretSpans(pat, text), p) ==> text[p] == BYTE_ORDER_MARK || Pass(pat, bound, text) == text
  {
    if Pass(pat, bound, text) != text {
      ChangeIsAPass(pat, bound, text);
      var q := NoPassCoversIt(pat, bound, text, 0, p);
    }
  }

  /** Without structural spans that exception is exact: a secret character survives only, and always, there. */
  lemma {:induction false} SecretSurvivesExactly(pat: Patterns, bound: string -> string, text: string, p: nat)
    requires !IsVaulted(text) && Completes(pat, bound, text) && Structural(pat, text) == []
    requires p < |text| && Covers(SecretSpans(pat, text), p) && text[p] != BYTE_ORDER_MARK
    ensures p in ResultOrigins(pat, bound, text) <==> Pass(pat, bound, text) == text
  {
    if p in ResultOrigins(pat, bound, text) {
      NoSecretSurvives(pat, bound, text, p);
    }
    if Pass(pat, bound, text) == text {
      assert StableAt(Step(pat, bound), text, 0);
      assert Iota(|text|)[p] == p;
    }
  }

  lemma {:induction false} WholeIsReplaced(text: string)
    requires text != "" && text[0] != BYTE_ORDER_MARK
    ensures Redacted(text, [Span(0, |text|)]) == MARKER
  {
    var spans := [Span(0, |text|)];
    assert CutOf(text, spans[0]) == spans[0];
    assert Cuts(text, spans) == spans && spans[1..] == [];
    assert Splice(text, MARKER, [], |text|) == "";
  }

  /** A text that is one secret span and that its own redaction gives back survives as it is. */
  lemma {:induction false} SelfMarkedSurvives(pat: Patterns, bound: string -> string, text: string, p: nat)
    requires SecretSpans(pat, text) == [Span(0, |text|)] && Structural(pat, text) == [] && !IsVaulted(text)
    requires Pass(pat, bound, text) == text && p < |text| && text[p] != BYTE_ORDER_MARK
    ensures Completes(pat, bound, text)
    ensures Covers(SecretSpans(pat, text), p) && p in ResultOrigins(pat, bound, text)
  {
    assert StableAt(Step(pat, bound), text, 0);
    assert Span(0, |text|).Has(p);
    SecretSurvivesExactly(pat, bound, text, p);
  }

  lemma {:induction false} MarkerIsPlain()
    ensures MARKER != "" && !IsVaulted(MARKER) && forall p | 0 <= p < |MARKER| :: MARKER[p] != BYTE_ORDER_MARK
  {
  }

  /** Such a text: a marker that is found as a secret is replaced by itself, so all of it survives. */
  lemma {:induction false} FoundMarkerSurvives(pat: Patterns, bound: string -> string, p: nat)
    requires SecretSpans(pat, MARKER) == [Span(0, |MARKER|)] && Structural(pat, MARKER) == []
    requires bound(MARKER) == MARKER && p < |MARKER|
    ensures !IsVaulted(MARKER) && Completes(pat, bound, MARKER)
    ensures Covers(SecretSpans(pat, MARKER), p) && p in ResultOrigins(pat, bound, MARKER)
  {
    MarkerIsPlain();
    WholeIsReplaced(MARKER);
    SelfMarkedSurvives(pat, bound, MARKER, p);
  }

  lemma {:induction false} MaskedSources(o: Origins, structural: seq<Span>, p: nat)
    requires Indexes(MaskMap(o, structural), |o|)
    ensures p in Compose(MaskMap(o, structural), o) <==> p in o && !Covers(structural, p)
  {
    var m := MaskMap(o, structural);
    var filler := seq(|o|, _ => ' ');
    MaskKeeps(filler, o, structural);
    if p in Compose(m, o) {
      var i :| 0 <= i < |m| && Compose(m, o)[i] == p;
      assert m[i] in m;
    }
    if p in o && !Covers(structural, p) {
      var k :| 0 <= k < |o| && o[k] == p;
      assert k in m;
      var i :| 0 <= i < |m| && m[i] == k;
      assert Compose(m, o)[i] == p;
    }
  }

  /** When the masked text is already stable and unbounded, exactly the structural positions are lost. */
  lemma {:induction false} NothingElseIsLost(pat: Patterns, bound: string -> string, text: string, p: nat)
    requires !IsVaulted(text) && Completes(pat, bound, text)
    requires var k := Rest(pat, bound, text).value;
             var shown := MaskedText(After(pat, bound, text, k), OriginsAfter(pat, bound, text, k),
                                     Structural(pat, text));
             bound(shown) == shown && Pass(pat, bound, shown) == shown
    ensures p in ResultOrigins(pat, bound, text) <==>
            p in OriginsAfter(pat, bound, text, Rest(pat, bound, text).value) && !Covers(pat.value(text), p)
  {
    var k := Rest(pat, bound, text).value;
    var first, structural := OriginsAfter(pat, bound, text, k), Structural(pat, text);
    if structural == [] {
      assert !Covers(structural, p);
    } else {
      var current := After(pat, bound, text, k);
      var shown := MaskedText(current, first, structural);
      MaskKeeps(current, first, structural);
      MaskedSources(first, structural, p);
      SettledFirst(Step(pat, bound), shown, PASSES);
      assert StableAt(Step(pat, bound), shown, 0);
      var toShown := Compose(MaskMap(first, structural), first);
      ComposeIdentity(toShown, p);
      ComposeIdentity(Compose(Iota(|toShown|), toShown), p);
    }
  }

  lemma {:induction false} ComposeIdentity(o: Origins, p: nat)
    ensures Indexes(Iota(|o|), |o|) && (p in Compose(Iota(|o|), o) <==> p in o)
  {
    var c := Compose(Iota(|o|), o);
    assert forall i | 0 <= i < |o| :: 0 <= o[i] ==> c[i] == o[i];
    if p in o {
      var i :| 0 <= i < |o| && o[i] == p;
      assert c[i] == p;
    }
  }
}

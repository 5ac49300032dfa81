/** The bounds under which event texts, messages and names are redacted. */
module EventText {
  import opened EventLimits
  import opened FixedPoint
  import opened Spans
  import opened Pieces
  import opened Labels
  import opened Redaction
  import opened Insertions

  const MAX_EVENT_NAME: nat := 100

  /** `_redact_event_text`: keep `limit` characters, then add the marker. */
  function TextBound(limit: nat): string -> string {
    (t: string) => if |t| > limit then t[..limit] + TRUNCATION_MARKER else t
  }

  /** `_bounded_event_message`: the marker counts towards the limit. */
  function MessageBound(): string -> string {
    (t: string) => if |t| <= MAX_STRING then t else t[..MAX_STRING - |TRUNCATION_MARKER|] + TRUNCATION_MARKER
  }

  /** `_backend_progress_event`: the prefixed name must fit its column. */
  function NameBound(): string -> string {
    (t: string) => if |t| <= MAX_EVENT_NAME - |BACKEND_PREFIX| then t else t[..MAX_EVENT_NAME - |BACKEND_PREFIX|]
  }

  /** `_redact_secret_text`: nothing is cut. */
  function Unbounded(): string -> string { (t: string) => t }

  ghost function RedactedText(pat: Patterns, limit: nat, t: string): string {
    RedactedResult(pat, TextBound(limit), t)
  }

  ghost function RedactedMessage(pat: Patterns, t: string): string {
    RedactedResult(pat, MessageBound(), t)
  }

  ghost function BackendEventName(pat: Patterns, t: string): string {
    BACKEND_PREFIX + RedactedResult(pat, NameBound(), t)
  }

  /** Every message fits 4096 characters. */
  lemma {:induction false} MessageFits(pat: Patterns, t: string)
    ensures |RedactedMessage(pat, t)| <= MAX_STRING
  {
    ResultIsBounded(pat, MessageBound(), t, MAX_STRING);
  }

  /** Every stored backend event name fits its 100-character column, prefix included. */
  lemma {:induction false} BackendNameFits(pat: Patterns, t: string)
    ensures |BackendEventName(pat, t)| <= MAX_EVENT_NAME
  {
    ResultIsBounded(pat, NameBound(), t, MAX_EVENT_NAME - |BACKEND_PREFIX|);
  }

  /** A redacted text is at most its limit and the marker long, for every limit that leaves room for a reference. */
  lemma {:induction false} TextFits(pat: Patterns, limit: nat, t: string)
    requires VAULT_LENGTH <= limit + |TRUNCATION_MARKER|
    ensures |RedactedText(pat, limit, t)| <= limit + |TRUNCATION_MARKER|
  {
    ResultIsBounded(pat, TextBound(limit), t, limit + |TRUNCATION_MARKER|);
  }

  // ----- Texts that are only cut -----

  /** When a second pass changes nothing, the first one gives the result. */
  lemma {:induction false} OnePassIsEnough(pat: Patterns, bound: string -> string, t: string, b: string)
    requires !IsVaulted(t) && Structural(pat, t) == [] && Pass(pat, bound, t) == b && Pass(pat, bound, b) == b
    ensures RedactedResult(pat, bound, t) == b
  {
    SettlesAfterOne(Step(pat, bound), t, b, PASSES);
  }

  /** When no pattern changes a text or what the bound makes of it, that is the result. */
  lemma {:induction false} UntouchedIsBounded(pat: Patterns, bound: string -> string, t: string, b: string)
    requires !IsVaulted(t) && Untouched(pat, t) && bound(t) == b && Untouched(pat, b) && bound(b) == b
    ensures RedactedResult(pat, bound, t) == b
  {
    OnePassIsEnough(pat, bound, t, b);
  }

  /** A long text is stored as its first `limit` characters and the marker, a short one as it is. */
  lemma {:induction false} LongTextIsCut(pat: Patterns, limit: nat, t: string)
    requires !IsVaulted(t) && Untouched(pat, t) && (|t| > limit ==> Untouched(pat, t[..limit] + TRUNCATION_MARKER))
    ensures RedactedText(pat, limit, t) == if |t| > limit then t[..limit] + TRUNCATION_MARKER else t
  {
    var b := TextBound(limit)(t);
    if |t| > limit { assert b[..limit] == t[..limit] && TextBound(limit)(b) == b; }
    UntouchedIsBounded(pat, TextBound(limit), t, b);
  }

  /** A long message is cut so that it fits with the marker. */
  lemma {:induction false} LongMessageIsCut(pat: Patterns, t: string, b: string)
    requires b == if |t| <= 4096 then t else t[..4082] + TRUNCATION_MARKER
    requires !IsVaulted(t) && Untouched(pat, t) && Untouched(pat, b)
    ensures RedactedMessage(pat, t) == b
  {
    assert |TRUNCATION_MARKER| == 14 && MessageBound()(t) == b && |b| <= MAX_STRING;
    UntouchedIsBounded(pat, MessageBound(), t, b);
  }

  /** A long backend name is cut to what its column leaves beside the prefix. */
  lemma {:induction false} LongNameIsCut(pat: Patterns, t: string, b: string)
    requires b == if |t| <= 91 then t else t[..91]
    requires !IsVaulted(t) && Untouched(pat, t) && Untouched(pat, b)
    ensures BackendEventName(pat, t) == "Backend::" + b
  {
    assert |BACKEND_PREFIX| == 9 && NameBound()(t) == b && |b| <= 91;
    UntouchedIsBounded(pat, NameBound(), t, b);
  }

  /** The three bounds only cut, and mark the cut with the truncation marker or not at all. */
  lemma {:induction false} BoundsOnlyCut(limit: nat)
    ensures OnlyCuts(TextBound(limit)) && OnlyCuts(MessageBound()) && OnlyCuts(NameBound()) && OnlyCuts(Unbounded())
  {
    forall t: string
      ensures IsBounded(t, TextBound(limit)(t)) && IsBounded(t, MessageBound()(t)) && IsBounded(t, NameBound()(t))
    {
    }
  }

  /** The cut may go through a marker: of a whole secret, a limit below ten leaves the start of the marker. */
  lemma {:induction false} MarkerIsCut(pat: Patterns, limit: nat, t: string, b: string)
    requires limit < |MARKER| && b == MARKER[..limit] + TRUNCATION_MARKER && Untouched(pat, b)
    requires t != "" && t[0] != BYTE_ORDER_MARK && !IsVaulted(t) && Structural(pat, t) == []
    requires SecretSpans(pat, t) == [Span(0, |t|)]
    ensures RedactedText(pat, limit, t) == b
  {
    WholeIsReplaced(t);
    assert b[..limit] == MARKER[..limit];
    OnePassIsEnough(pat, TextBound(limit), t, b);
  }
}

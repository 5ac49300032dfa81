/**
 Pieces: the run-length form in which a redacted text carries its origins, and the passes that keep
 it up to date. Each method is proved against the per-character index maps of `Provenance`.
 */
module Pieces {
  import opened EventLimits
  import opened Spans
  import opened Provenance

  const BYTE_ORDER_MARK := '\U{FEFF}'

  /** `length` characters kept from `source` on, or inserted when `source` is negative. */
  datatype Piece = Piece(length: nat, source: int)

  ghost predicate Tidy(pieces: seq<Piece>) {
    forall i | 0 <= i < |pieces| :: 0 < pieces[i].length && -1 <= pieces[i].source
  }

  ghost function Run(p: Piece): Origins {
    seq(p.length, i => if p.source < 0 then p.source else p.source + i)
  }

  /** The origin of every character. */
  ghost function Expand(pieces: seq<Piece>): Origins {
    if pieces == [] then [] else Run(pieces[0]) + Expand(pieces[1..])
  }

  lemma {:induction false} ExpandConcat(a: seq<Piece>, b: seq<Piece>)
    ensures Expand(a + b) == Expand(a) + Expand(b)
  {
    if a == [] {
      assert a + b == b;
    } else {
      assert (a + b)[1..] == a[1..] + b;
      ExpandConcat(a[1..], b);
    }
  }

  lemma {:induction false} ExpandPush(pieces: seq<Piece>, p: Piece)
    ensures Expand(pieces + [p]) == Expand(pieces) + Run(p)
  {
    ExpandConcat(pieces, [p]);
  }

  lemma {:induction false} ExpandAt(pieces: seq<Piece>, k: nat)
    requires k < |pieces|
    ensures var offset := |Expand(pieces[..k])|;
            && Expand(pieces[..k + 1]) == Expand(pieces[..k]) + Run(pieces[k])
            && offset + pieces[k].length <= |Expand(pieces)|
            && Expand(pieces)[offset..offset + pieces[k].length] == Run(pieces[k])
  {
    assert pieces[..k + 1] == pieces[..k] + [pieces[k]];
    assert pieces == pieces[..k + 1] + pieces[k + 1..];
    ExpandPush(pieces[..k], pieces[k]);
    ExpandConcat(pieces[..k + 1], pieces[k + 1..]);
  }

  lemma {:induction false} TidyOrigins(pieces: seq<Piece>)
    requires Tidy(pieces)
    ensures forall i | 0 <= i < |Expand(pieces)| && Expand(pieces)[i] < 0 :: Expand(pieces)[i] == -1
  {
    if pieces != [] {
      TidyOrigins(pieces[1..]);
    }
  }

  lemma {:induction false} TidyConcat(a: seq<Piece>, b: seq<Piece>)
    requires Tidy(a) && Tidy(b)
    ensures Tidy(a + b)
  {
  }

  function Max(a: int, b: int): int { if a < b then b else a }

  function Min(a: int, b: int): int { if a < b then a else b }

  /** The part of a piece at `offset` that lies in `low..high`. */
  function PartOf(piece: Piece, offset: nat, low: nat, high: nat): Piece
    requires offset <= low <= high
  {
    Piece(high - low, if piece.source < 0 then piece.source else piece.source + low - offset)
  }

  lemma {:induction false} PartRun(pieces: seq<Piece>, k: nat, offset: nat, low: nat, high: nat)
    requires k < |pieces| && offset == |Expand(pieces[..k])|
    requires offset <= low < high <= offset + pieces[k].length
    ensures high <= |Expand(pieces)|
    ensures Run(PartOf(pieces[k], offset, low, high)) == Expand(pieces)[low..high]
  {
    ExpandAt(pieces, k);
    var all, piece := Expand(pieces), pieces[k];
    forall i | low <= i < high ensures all[i] == Run(piece)[i - offset] {
      assert all[offset..offset + piece.length][i - offset] == all[i];
    }
  }

  /** The cursor stands before piece `i`, at `from`, and `result` holds what it read since `start`. */
  ghost predicate Taken(pieces: seq<Piece>, start: nat, end: nat, i: nat, from: nat, result: seq<Piece>)
    requires start <= end <= |Expand(pieces)|
  {
    && Tidy(pieces) && i <= |pieces| && from == |Expand(pieces[..i])| <= end
    && Tidy(result) && Expand(result) == Expand(pieces)[start..Max(start, from)]
  }

  lemma {:induction false} TakeStep(pieces: seq<Piece>, start: nat, end: nat, k: nat, from: nat, result: seq<Piece>)
    requires start <= end <= |Expand(pieces)| && k < |pieces| && Taken(pieces, start, end, k, from, result)
    ensures var pieceEnd := from + pieces[k].length;
            var low, high := Max(start, from), Min(end, pieceEnd);
            var grown := if low < high then result + [PartOf(pieces[k], from, low, high)] else result;
            && Tidy(grown) && (pieceEnd <= end ==> Taken(pieces, start, end, k + 1, pieceEnd, grown))
            && (end < pieceEnd ==> Expand(grown) == Expand(pieces)[start..end])
  {
    var low, high := Max(start, from), Min(end, from + pieces[k].length);
    assert |Expand(pieces[..k + 1])| == from + pieces[k].length <= |Expand(pieces)| by { ExpandAt(pieces, k); }
    if low < high {
      PartRun(pieces, k, from, low, high);
      ExpandPush(result, PartOf(pieces[k], from, low, high));
      Adjoin(Expand(pieces), start, low, high);
    } else {
      assert Max(start, high) == Max(start, from);
    }
  }

  lemma {:induction false} TakenAll(pieces: seq<Piece>, start: nat, end: nat, from: nat, result: seq<Piece>)
    requires start <= end <= |Expand(pieces)| && Taken(pieces, start, end, |pieces|, from, result)
    ensures Expand(result) == Expand(pieces)[start..end]
  {
    assert pieces[..|pieces|] == pieces;
  }

  /** `_PieceCursor`: reads consecutive ranges of a text through its pieces, moving only forward. */
  class PieceCursor {
    const pieces: seq<Piece>
    var index: nat
    var offset: nat

    ghost predicate Valid()
      reads this
    {
      Tidy(pieces) && index <= |pieces| && offset == |Expand(pieces[..index])|
    }

    constructor (pieces: seq<Piece>)
      requires Tidy(pieces)
      ensures Valid() && this.pieces == pieces && offset == 0
    {
      this.pieces := pieces;
      index, offset := 0, 0;
    }

    method Take(start: nat, end: nat) returns (result: seq<Piece>)
      requires Valid() && offset <= start <= end <= |Expand(pieces)|
      modifies this
      ensures Valid() && offset <= end
      ensures Tidy(result) && Expand(result) == Expand(pieces)[start..end]
    {
      var i: nat, from: nat := index, offset;
      result := [];
      while i < |pieces|
        invariant Taken(pieces, start, end, i, from, result)
        decreases |pieces| - i
      {
        var pieceEnd := from + pieces[i].length;
        var low, high := Max(start, from), Min(end, pieceEnd);
        TakeStep(pieces, start, end, i, from, result);
        if low < high {
          result := result + [PartOf(pieces[i], from, low, high)];
        }
        if pieceEnd > end {
          index, offset := i, from;
          return;
        }
        i, from := i + 1, pieceEnd;
      }
      TakenAll(pieces, start, end, from, result);
      index, offset := i, from;
    }
  }

  // ----- Replacing secret spans -----

  function LeadingByteOrderMarks(s: string): (k: nat)
    ensures k <= |s|
    ensures forall i | 0 <= i < k :: s[i] == BYTE_ORDER_MARK
    ensures k < |s| ==> s[k] != BYTE_ORDER_MARK
  {
    if s == "" || s[0] != BYTE_ORDER_MARK then 0 else 1 + LeadingByteOrderMarks(s[1..])
  }

  function CutOf(text: string, span: Span): Span
    requires span.start <= span.end <= |text|
  {
    Span(span.start + LeadingByteOrderMarks(text[span.start..span.end]), span.end)
  }

  /** What a span removes: all of it but the byte-order marks it starts with. */
  ghost function Cuts(text: string, spans: seq<Span>): (cuts: seq<Span>)
    requires Proper(spans, |text|) && Separated(spans, 0)
    ensures |cuts| == |spans| && Cuttable(cuts, 0, |text|)
  {
    seq(|spans|, i requires 0 <= i < |spans| => CutOf(text, spans[i]))
  }

  ghost function Redacted(text: string, spans: seq<Span>): string
    requires Proper(spans, |text|) && Separated(spans, 0)
  {
    Splice(text, MARKER, Cuts(text, spans), 0)
  }

  ghost function RedactMap(text: string, spans: seq<Span>): Origins
    requires Proper(spans, |text|) && Separated(spans, 0)
  {
    SpliceMap(|text|, |MARKER|, Cuts(text, spans), 0)
  }

  lemma {:induction false} CutHas(text: string, s: Span, k: nat)
    requires s.start <= k < s.end <= |text|
    ensures CutOf(text, s).Has(k) <==> !(forall j | s.start <= j <= k :: text[j] == BYTE_ORDER_MARK)
  {
    var body := text[s.start..s.end];
    var kept := LeadingByteOrderMarks(body);
    if kept <= k - s.start {
      assert text[s.start + kept] == body[kept] != BYTE_ORDER_MARK;
    } else {
      forall j | s.start <= j <= k ensures text[j] == BYTE_ORDER_MARK {
        assert body[j - s.start] == text[j];
      }
    }
  }

  /** A pass keeps a position exactly when no span holds it, or it is a leading byte-order mark. */
  lemma {:induction false} RedactKeeps(text: string, spans: seq<Span>, k: nat)
    requires Proper(spans, |text|) && Separated(spans, 0) && k < |text|
    ensures k in RedactMap(text, spans) <==>
            forall i | 0 <= i < |spans| && spans[i].Has(k) ::
              forall j | spans[i].start <= j <= k :: text[j] == BYTE_ORDER_MARK
  {
    var cuts := Cuts(text, spans);
    SpliceKeeps(|text|, |MARKER|, cuts, 0, k);
    forall i | 0 <= i < |spans| && spans[i].Has(k)
      ensures cuts[i].Has(k) <==> !(forall j | spans[i].start <= j <= k :: text[j] == BYTE_ORDER_MARK)
    {
      CutHas(text, spans[i], k);
    }
    if Covers(cuts, k) {
      var i :| 0 <= i < |cuts| && cuts[i].Has(k);
      assert spans[i].Has(k);
    }
  }

  lemma {:induction false} Adjoin<T>(xs: seq<T>, a: nat, b: nat, c: nat)
    requires a <= b <= c <= |xs|
    ensures xs[a..b] + xs[b..c] == xs[a..c]
  {
  }

  lemma {:induction false} PushMarked(result: seq<Piece>, before: seq<Piece>, origins: Origins)
    requires Tidy(result) && Tidy(before) && Expand(before) == origins
    ensures var grown := result + before + [Piece(|MARKER|, -1)];
            Tidy(grown) && Expand(grown) == Expand(result) + origins + Inserted(|MARKER|)
  {
    ExpandConcat(result, before);
    ExpandPush(result + before, Piece(|MARKER|, -1));
    TidyConcat(result, before);
    assert Run(Piece(|MARKER|, -1)) == Inserted(|MARKER|);
  }

  lemma {:induction false} SpliceStep<T>(done: seq<T>, xs: seq<T>, mark: seq<T>, cuts: seq<Span>, i: nat, last: nat,
                                         grown: seq<T>)
    requires i < |cuts| && Cuttable(cuts[i..], last, |xs|)
    requires grown == done + xs[last..cuts[i].start] + mark
    ensures Cuttable(cuts[i + 1..], cuts[i].end, |xs|)
    ensures grown + Splice(xs, mark, cuts[i + 1..], cuts[i].end) == done + Splice(xs, mark, cuts[i..], last)
  {
    var rest := cuts[i..];
    assert rest[0] == cuts[i] && rest[1..] == cuts[i + 1..];
  }

  /** `_redact_spans_tracked`, for one span: what is kept since `last`, as text and as pieces. */
  method KeepUpTo(cursor: PieceCursor, text: string, span: Span, last: nat)
    returns (keptText: string, before: seq<Piece>)
    requires cursor.Valid() && |Expand(cursor.pieces)| == |text|
    requires cursor.offset <= last <= span.start < span.end <= |text|
    modifies cursor
    ensures cursor.Valid() && cursor.offset <= span.end
    ensures keptText == text[last..CutOf(text, span).start]
    ensures Tidy(before) && Expand(before) == Expand(cursor.pieces)[last..CutOf(text, span).start]
  {
    var body := text[span.start..span.end];
    var kept := LeadingByteOrderMarks(body);
    Adjoin(text, last, span.start, span.start + kept);
    keptText := text[last..span.start] + text[span.start..span.start + kept];
    before := cursor.Take(last, span.start + kept);
    var _ := cursor.Take(span.start + kept, span.end);
  }

  /** The first `i` spans are replaced, up to position `last`. */
  ghost predicate ReplacedUpTo(text: string, all: Origins, spans: seq<Span>, i: nat, last: nat, redacted: string,
                               result: seq<Piece>)
    requires Proper(spans, |text|) && Separated(spans, 0) && |all| == |text| && i <= |spans|
  {
    var cuts, ins := Cuts(text, spans), Inserted(|MARKER|);
    && Tidy(result) && Cuttable(cuts[i..], last, |text|) && (i < |spans| ==> last <= spans[i].start)
    && redacted + Splice(text, MARKER, cuts[i..], last) == Redacted(text, spans)
    && Expand(result) + Splice(all, ins, cuts[i..], last) == Splice(all, ins, cuts, 0)
  }

  lemma {:induction false} ReplaceNext(text: string, all: Origins, spans: seq<Span>, i: nat, last: nat,
                                       redacted: string, result: seq<Piece>, keptText: string, before: seq<Piece>)
    requires Proper(spans, |text|) && Separated(spans, 0) && |all| == |text| && i < |spans|
    requires ReplacedUpTo(text, all, spans, i, last, redacted, result)
    requires last <= CutOf(text, spans[i]).start
    requires keptText == text[last..CutOf(text, spans[i]).start]
    requires Tidy(before) && Expand(before) == all[last..CutOf(text, spans[i]).start]
    ensures ReplacedUpTo(text, all, spans, i + 1, spans[i].end,
                         redacted + keptText + MARKER, result + before + [Piece(|MARKER|, -1)])
  {
    var cuts, ins := Cuts(text, spans), Inserted(|MARKER|);
    assert cuts[i] == CutOf(text, spans[i]);
    SpliceStep(redacted, text, MARKER, cuts, i, last, redacted + keptText + MARKER);
    PushMarked(result, before, all[last..cuts[i].start]);
    SpliceStep(Expand(result), all, ins, cuts, i, last, Expand(result + before + [Piece(|MARKER|, -1)]));
  }

  lemma {:induction false} ReplaceRest(text: string, all: Origins, spans: seq<Span>, last: nat, redacted: string,
                                       result: seq<Piece>, rest: seq<Piece>)
    requires Proper(spans, |text|) && Separated(spans, 0) && |all| == |text| && last <= |text|
    requires ReplacedUpTo(text, all, spans, |spans|, last, redacted, result)
    requires Tidy(rest) && Expand(rest) == all[last..]
    ensures redacted + text[last..] == Redacted(text, spans)
    ensures Tidy(result + rest) && Expand(result + rest) == Splice(all, Inserted(|MARKER|), Cuts(text, spans), 0)
  {
    ExpandConcat(result, rest);
    TidyConcat(result, rest);
  }

  /** `_redact_spans_tracked`: the marker replaces each span, in the text and in its pieces. */
  method RedactSpansTracked(text: string, pieces: seq<Piece>, spans: seq<Span>)
    returns (redacted: string, result: seq<Piece>)
    requires Tidy(pieces) && |Expand(pieces)| == |text|
    requires Proper(spans, |text|) && Separated(spans, 0)
    ensures redacted == Redacted(text, spans)
    ensures Tidy(result) && Expand(result) == Splice(Expand(pieces), Inserted(|MARKER|), Cuts(text, spans), 0)
  {
    redacted, result := "", [];
    var cursor := new PieceCursor(pieces);
    var last: nat := 0;
    assert Cuts(text, spans)[0..] == Cuts(text, spans);
    for i := 0 to |spans|
      invariant cursor.Valid() && cursor.pieces == pieces && cursor.offset <= last <= |text|
      invariant i < |spans| ==> last <= spans[i].start
      invariant ReplacedUpTo(text, Expand(pieces), spans, i, last, redacted, result)
    {
      var keptText, before := KeepUpTo(cursor, text, spans[i], last);
      ReplaceNext(text, Expand(pieces), spans, i, last, redacted, result, keptText, before);
      redacted := redacted + keptText + MARKER;
      result := result + before + [Piece(|MARKER|, -1)];
      last := spans[i].end;
    }
    var rest := cursor.Take(last, |text|);
    ReplaceRest(text, Expand(pieces), spans, last, redacted, result, rest);
    redacted := redacted + text[last..];
    result := result + rest;
  }

  // ----- Bounding -----

  /** `_bound_tracked`, its binary search for the kept prefix. */
  method SearchCommonPrefix(text: string, bounded: string) returns (low: nat)
    ensures low == CommonPrefix(text, bounded)
  {
    low := 0;
    var high: nat := if |text| < |bounded| then |text| else |bounded|;
    while low < high
      invariant low <= CommonPrefix(text, bounded) <= high <= |text|
      invariant high <= |bounded|
    {
      var middle := (low + high + 1) / 2;
      CommonPrefixLongest(text, bounded, middle);
      if text[..middle] == bounded[..middle] {
        low := middle;
      } else {
        high := middle - 1;
      }
    }
  }

  /** `_bound_tracked`: the kept prefix, then the inserted characters. */
  method BoundTracked(text: string, pieces: seq<Piece>, bounded: string) returns (result: seq<Piece>)
    requires Tidy(pieces) && |Expand(pieces)| == |text|
    ensures Tidy(result)
    ensures Indexes(BoundMap(text, bounded), |text|)
    ensures Expand(result) == Compose(BoundMap(text, bounded), Expand(pieces))
  {
    TidyOrigins(pieces);
    BoundCompose(text, bounded, Expand(pieces));
    if bounded == text {
      return pieces;
    }
    var low := SearchCommonPrefix(text, bounded);
    result := TakePrefix(pieces, low);
    if |bounded| > low {
      var rest := Piece(|bounded| - low, -1);
      assert Run(rest) == Inserted(|bounded| - low);
      ExpandPush(result, rest);
      result := result + [rest];
    }
  }

  method TakePrefix(pieces: seq<Piece>, low: nat) returns (result: seq<Piece>)
    requires Tidy(pieces) && low <= |Expand(pieces)|
    ensures Tidy(result) && Expand(result) == Expand(pieces)[..low]
  {
    var cursor := new PieceCursor(pieces);
    result := cursor.Take(0, low);
    assert Expand(pieces)[0..low] == Expand(pieces)[..low];
  }

  lemma {:induction false} BoundCompose(text: string, bounded: string, o: Origins)
    requires |o| == |text|
    requires forall i | 0 <= i < |o| && o[i] < 0 :: o[i] == -1
    ensures Indexes(BoundMap(text, bounded), |o|)
    ensures var k := CommonPrefix(text, bounded);
            Compose(BoundMap(text, bounded), o) == if bounded == text then o else o[..k] + Inserted(|bounded| - k)
  {
  }
}

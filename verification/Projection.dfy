/**
 The live execution row against the ledger: each append projects the stored record onto the row, and
 replay folds all stored records. The domain events and their effect are left open.
 */
module Projection {

  /**
   The event registry and its meaning. `K` are event types, `D` event data, `V` decoded events and `S`
   projected states. `decode` is `from_data`; `unnamed` is what replay reads for an unregistered name.
   */
  datatype Domain<!K(!new, ==), !D(!new), !V(!new), !S(!new)> = Domain(
    types: map<string, K>,
    backend: K,
    decode: (K, D) -> V,
    unnamed: (string, D) -> V,
    redact: (K, D) -> D,
    bounded: string -> string,
    apply: (S, V) -> S,
    initial: S)
  {
    /** A backend event does not move the projection, however it is decoded. */
    ghost predicate BackendIsInert() {
      && (forall s: S, d: D :: apply(s, decode(backend, d)) == s)
      && (forall s: S, n: string, d: D :: apply(s, unnamed(n, d)) == s)
    }

    /** `from_record`. */
    function FromRecord(r: Record<D>): V {
      if r.name in types then decode(types[r.name], r.data) else unnamed(r.name, r.data)
    }

    /** `rebuild` over the records in sequence order. */
    function Rebuild(records: seq<Record<D>>): S {
      if records == [] then initial
      else apply(Rebuild(records[..|records| - 1]), FromRecord(records[|records| - 1]))
    }

    /** The event's name is its type's own, or an unregistered one for a backend event. */
    predicate WellNamed(k: K, name: string) {
      if k == backend then name !in types || types[name] == backend else name in types && types[name] == k
    }
  }

  datatype Record<D> = Record(level: string, name: string, message: string, data: D)

  const LEVELS := {"debug", "info", "warning", "error"}

  /** `_event_level`. */
  function EventLevel(level: string): string { if level in LEVELS then level else "info" }

  /** The projected columns of an `RPCExecution` row and the records of its ledger. */
  class Execution<K(!new, ==), D(!new), V(!new), S(!new, ==)> {
    const domain: Domain<K, D, V, S>
    var row: S
    var records: seq<Record<D>>

    /** The row is what replay gives. */
    ghost predicate Consistent()
      reads this
    {
      row == domain.Rebuild(records)
    }

    constructor (domain: Domain<K, D, V, S>)
      ensures this.domain == domain && records == [] && row == domain.initial && Consistent()
    {
      this.domain := domain;
      row, records := domain.initial, [];
    }

    /** `_append_and_project`: the record is redacted, and the row is projected from the record. */
    method AppendAndProject(k: K, level: string, name: string, message: string, data: D) returns (record: Record<D>)
      requires domain.BackendIsInert() && domain.WellNamed(k, name)
      modifies this
      ensures record == Record(EventLevel(level), name, domain.bounded(message), domain.redact(k, data))
      ensures records == old(records) + [record]
      ensures row == domain.apply(old(row), domain.decode(k, record.data))
      ensures old(Consistent()) ==> Consistent()
    {
      record := Record(EventLevel(level), name, domain.bounded(message), domain.redact(k, data));
      records := records + [record];
      row := domain.apply(row, domain.decode(k, record.data));
      SameMeaning(domain, k, record, old(row));
    }

    /** `reproject`: on a consistent execution, replay writes nothing. */
    method Reproject() returns (wrote: bool)
      modifies this
      ensures row == domain.Rebuild(old(records)) && records == old(records) && Consistent()
      ensures wrote <==> !old(Consistent())
      ensures old(Consistent()) ==> row == old(row)
    {
      var state := domain.Rebuild(records);
      wrote := row != state;
      if wrote {
        row := state;
      }
    }
  }

  /** The type that appended a record and the name that replays it move the projection alike. */
  lemma {:induction false} SameMeaning<K(!new), D(!new), V(!new), S(!new)>(
    dom: Domain<K, D, V, S>, k: K, r: Record<D>, s: S)
    requires dom.BackendIsInert() && dom.WellNamed(k, r.name)
    ensures dom.apply(s, dom.FromRecord(r)) == dom.apply(s, dom.decode(k, r.data))
  {
    if k == dom.backend {
      assert dom.apply(s, dom.decode(dom.backend, r.data)) == s;
      assert dom.apply(s, dom.unnamed(r.name, r.data)) == s;
    }
  }

  // ----- Whole runs -----

  datatype Append<K, D> = Append(k: K, level: string, name: string, message: string, data: D)

  /** The record that an append stores. */
  ghost function Stored<K(!new), D(!new), V(!new), S(!new)>(dom: Domain<K, D, V, S>, a: Append<K, D>): Record<D> {
    Record(EventLevel(a.level), a.name, dom.bounded(a.message), dom.redact(a.k, a.data))
  }

  /** The row and the records after a run of appends from the initial state. */
  ghost function Run<K(!new), D(!new), V(!new), S(!new)>(dom: Domain<K, D, V, S>, run: seq<Append<K, D>>)
    : (S, seq<Record<D>>)
  {
    if run == [] then (dom.initial, [])
    else
      var (row, records) := Run(dom, run[..|run| - 1]);
      var a := run[|run| - 1];
      var r := Stored(dom, a);
      (dom.apply(row, dom.decode(a.k, r.data)), records + [r])
  }

  /** After every run of appends, the live row equals the fold of the stored records. */
  lemma {:induction false} IncrementalIsReplay<K(!new), D(!new), V(!new), S(!new)>(
    dom: Domain<K, D, V, S>, run: seq<Append<K, D>>)
    requires dom.BackendIsInert() && forall i | 0 <= i < |run| :: dom.WellNamed(run[i].k, run[i].name)
    ensures Run(dom, run).0 == dom.Rebuild(Run(dom, run).1)
  {
    if run != [] {
      var n := |run| - 1;
      IncrementalIsReplay(dom, run[..n]);
      var (row, records) := Run(dom, run[..n]);
      var r := Stored(dom, run[n]);
      SameMeaning(dom, run[n].k, r, row);
      assert (records + [r])[..|records|] == records;
    }
  }

  // ----- Projecting the caller's event instead -----

  /** The row that a run would reach if each append projected the event it was given, not the stored record. */
  ghost function CallerRow<K(!new), D(!new), V(!new), S(!new)>(dom: Domain<K, D, V, S>, run: seq<Append<K, D>>): S {
    if run == [] then dom.initial
    else
      var a := run[|run| - 1];
      dom.apply(CallerRow(dom, run[..|run| - 1]), dom.decode(a.k, a.data))
  }

  /** Redacting this event's data does not change where it takes the row. */
  ghost predicate RedactionIsInvisible<K(!new), D(!new), V(!new), S(!new)>(
    dom: Domain<K, D, V, S>, s: S, a: Append<K, D>)
  {
    dom.apply(s, dom.decode(a.k, a.data)) == dom.apply(s, dom.decode(a.k, dom.redact(a.k, a.data)))
  }

  /** The caller's row is the replayed row after each of the first `n` appends. */
  ghost predicate FollowsReplay<K(!new), D(!new), V(!new), S(!new)>(
    dom: Domain<K, D, V, S>, run: seq<Append<K, D>>, n: nat)
    requires n <= |run|
  {
    forall i | 0 <= i <= n :: Follows(dom, run, i)
  }

  ghost predicate InvisibleUpTo<K(!new), D(!new), V(!new), S(!new)>(
    dom: Domain<K, D, V, S>, run: seq<Append<K, D>>, n: nat)
    requires n <= |run|
  {
    forall i | 0 <= i < n :: RedactionIsInvisible(dom, Run(dom, run[..i]).0, run[i])
  }

  lemma {:induction false} PrefixSteps<K(!new), D(!new), V(!new), S(!new)>(
    dom: Domain<K, D, V, S>, run: seq<Append<K, D>>, i: nat)
    requires i < |run|
    ensures CallerRow(dom, run[..i + 1]) == dom.apply(CallerRow(dom, run[..i]), dom.decode(run[i].k, run[i].data))
    ensures Run(dom, run[..i + 1]).0
            == dom.apply(Run(dom, run[..i]).0, dom.decode(run[i].k, dom.redact(run[i].k, run[i].data)))
  {
    assert run[..i + 1][..i] == run[..i] && run[..i + 1][i] == run[i];
  }

  /**
   Projecting the caller's events agrees with replay after every prefix of a run exactly when, at each
   state the run reaches, redaction does not change where the event takes the row.
   */
  lemma {:induction false} CallerFollowsReplayExactly<K(!new), D(!new), V(!new), S(!new)>(
    dom: Domain<K, D, V, S>, run: seq<Append<K, D>>, n: nat)
    requires dom.BackendIsInert() && forall i | 0 <= i < |run| :: dom.WellNamed(run[i].k, run[i].name)
    requires n <= |run|
    ensures FollowsReplay(dom, run, n) <==> InvisibleUpTo(dom, run, n)
  {
    if n == 0 {
      assert run[..0] == [];
    } else {
      CallerFollowsReplayExactly(dom, run, n - 1);
      CallerStep(dom, run, n - 1);
      SplitLast(dom, run, n);
    }
  }

  lemma {:induction false} SplitLast<K(!new), D(!new), V(!new), S(!new)>(
    dom: Domain<K, D, V, S>, run: seq<Append<K, D>>, n: nat)
    requires 0 < n <= |run|
    ensures FollowsReplay(dom, run, n) <==> FollowsReplay(dom, run, n - 1) && Follows(dom, run, n)
    ensures InvisibleUpTo(dom, run, n) <==>
            InvisibleUpTo(dom, run, n - 1) && RedactionIsInvisible(dom, Run(dom, run[..n - 1]).0, run[n - 1])
    ensures FollowsReplay(dom, run, n) ==> Follows(dom, run, n - 1)
  {
  }

  /** The caller's row is the replayed row after `n` appends. */
  ghost predicate Follows<K(!new), D(!new), V(!new), S(!new)>(dom: Domain<K, D, V, S>, run: seq<Append<K, D>>, n: nat)
    requires n <= |run|
  {
    CallerRow(dom, run[..n]) == dom.Rebuild(Run(dom, run[..n]).1)
  }

  /** One append keeps the caller's row on replay exactly when redaction is invisible there. */
  lemma {:induction false} CallerStep<K(!new), D(!new), V(!new), S(!new)>(
    dom: Domain<K, D, V, S>, run: seq<Append<K, D>>, i: nat)
    requires dom.BackendIsInert() && forall i | 0 <= i < |run| :: dom.WellNamed(run[i].k, run[i].name)
    requires i < |run|
    ensures Follows(dom, run, i) ==>
              (Follows(dom, run, i + 1) <==> RedactionIsInvisible(dom, Run(dom, run[..i]).0, run[i]))
  {
    PrefixSteps(dom, run, i);
    IncrementalIsReplay(dom, run[..i]);
    IncrementalIsReplay(dom, run[..i + 1]);
  }

  /** A domain with one registered type, whose event sets the row to its text and is stored as a marker. */
  function Marking(marker: string): Domain<bool, string, (bool, string), string> {
    Domain(map["E" := true], false, (k, d) => (k, d), (_, d) => (false, d), (_, _) => marker, m => m,
           (s: string, v: (bool, string)) => if v.0 then v.1 else s, "")
  }

  /** In that domain one append is enough: the caller's text stays in the row, and replay gives the marker. */
  lemma {:induction false} MarkedTextIsNotReplayed(marker: string, data: string)
    requires data != marker
    ensures var dom, run := Marking(marker), [Append(true, "info", "E", "", data)];
            && dom.BackendIsInert() && dom.WellNamed(run[0].k, run[0].name)
            && CallerRow(dom, run) == data && dom.Rebuild(Run(dom, run).1) == marker
  {
    var dom, run := Marking(marker), [Append(true, "info", "E", "", data)];
    assert run[..0] == [];
    IncrementalIsReplay(dom, run);
  }
}

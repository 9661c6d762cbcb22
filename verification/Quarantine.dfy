/** The two-scan quarantine of scripts/mailbox_pool_liveness.py. A pool line is known by its fingerprint (`key`);
    lines that are not credentials (`parses`) are not probed. What the probes answer is arbitrary. */
module Quarantine {
  /** `Dead` is a definitive rejection (401, 403, 404 or 410); any other failure retains the line. */
  datatype Verdict = Alive | Unsure | Dead

  datatype Entry = Entry(confirmations: nat, firstSeenAt: int, lastSeenAt: int)

  datatype Probe = Probe(key: string, dead: bool)

  type Lines = seq<string>

  /** How many of the last of the first `n` probes of this key were dead, without a gap. */
  function DeadRunAt(probes: seq<Probe>, n: nat, key: string): nat
    requires n <= |probes|
  {
    if n == 0 then 0
    else if probes[n - 1].key != key then DeadRunAt(probes, n - 1, key)
    else if probes[n - 1].dead then DeadRunAt(probes, n - 1, key) + 1
    else 0
  }

  function DeadRun(probes: seq<Probe>, key: string): nat { DeadRunAt(probes, |probes|, key) }

  lemma {:induction false} DeadRunPrefix(probes: seq<Probe>, more: seq<Probe>, n: nat, key: string)
    requires n <= |probes|
    ensures DeadRunAt(probes + more, n, key) == DeadRunAt(probes, n, key)
  {
    if n > 0 { DeadRunPrefix(probes, more, n - 1, key); }
  }

  lemma DeadRunNext(probes: seq<Probe>, p: Probe, key: string)
    ensures DeadRun(probes + [p], key) ==
      if p.key != key then DeadRun(probes, key) else if p.dead then DeadRun(probes, key) + 1 else 0
  {
    DeadRunPrefix(probes, [p], |probes|, key);
  }

  /** The run is the length of the trailing dead run: among the probes after some point there are exactly that
      many of this key, all dead, and the probe of this key before them, if any, is not. */
  lemma {:induction false} DeadRunMeaning(probes: seq<Probe>, n: nat, key: string) returns (start: nat)
    requires n <= |probes|
    ensures start <= n && forall i :: start <= i < n && probes[i].key == key ==> probes[i].dead
    ensures Occurrences(probes, start, n, key) == DeadRunAt(probes, n, key)
    ensures start > 0 ==> probes[start - 1].key == key && !probes[start - 1].dead
  {
    if n == 0 {
      start := 0;
    } else if probes[n - 1].key == key && !probes[n - 1].dead {
      start := n;
    } else {
      start := DeadRunMeaning(probes, n - 1, key);
    }
  }

  function Occurrences(probes: seq<Probe>, from: nat, to: nat, key: string): nat
    requires from <= to <= |probes|
  {
    if from == to then 0 else Occurrences(probes, from, to - 1, key) + if probes[to - 1].key == key then 1 else 0
  }

  // ---- one scan ------------------------------------------------------------------------------

  /** The tool's view of a line. */
  datatype Reader = Reader(key: string -> string, parses: string -> bool)

  /** The probes of the first `n` lines, in line order. */
  function ProbesOf(r: Reader, lines: Lines, verdicts: seq<Verdict>, n: nat): seq<Probe>
    requires n <= |lines| == |verdicts|
  {
    if n == 0 then []
    else
      var before := ProbesOf(r, lines, verdicts, n - 1);
      if r.parses(lines[n - 1]) then before + [Probe(r.key(lines[n - 1]), verdicts[n - 1].Dead?)] else before
  }

  /** The line is confirmed dead: with this probe its run reaches two. */
  predicate Confirmed(r: Reader, earlier: seq<Probe>, lines: Lines, verdicts: seq<Verdict>, i: nat)
    requires i < |lines| == |verdicts|
  {
    r.parses(lines[i]) && verdicts[i].Dead? &&
    DeadRun(earlier + ProbesOf(r, lines, verdicts, i + 1), r.key(lines[i])) >= 2
  }

  /** The lines whose position is not in `gone`, in order. */
  function Without(lines: Lines, gone: set<nat>, n: nat): Lines
    requires n <= |lines|
  {
    if n == 0 then []
    else if n - 1 in gone then Without(lines, gone, n - 1)
    else Without(lines, gone, n - 1) + [lines[n - 1]]
  }

  class Pool {
    const reader: Reader
    var lines: Lines
    var quarantine: map<string, Entry>
    ghost var probes: seq<Probe>

    /** The quarantine holds exactly the keys whose last probe was dead, with the length of their run. */
    ghost predicate Valid()
      reads this
    {
      Counts(quarantine, probes)
    }

    constructor (reader: Reader, lines: Lines)
      ensures Valid() && this.reader == reader && this.lines == lines && probes == []
    {
      this.reader, this.lines, quarantine, probes := reader, lines, map[], [];
    }

    /** One run of the tool: the verdicts update the quarantine in line order, and with `apply` the confirmed
        lines are removed. */
    method Scan(verdicts: seq<Verdict>, now: int, apply: bool) returns (confirmed: set<nat>)
      requires Valid() && |verdicts| == |lines|
      modifies this
      ensures Valid() && probes == old(probes) + ProbesOf(reader, old(lines), verdicts, |old(lines)|)
      ensures forall i: nat :: i in confirmed <==> i < |old(lines)| && Confirmed(reader, old(probes), old(lines), verdicts, i)
      ensures lines == if apply then Without(old(lines), confirmed, |old(lines)|) else old(lines)
    {
      confirmed := {};
      for i := 0 to |lines|
        invariant lines == old(lines) && probes == old(probes) + ProbesOf(reader, lines, verdicts, i)
        invariant Counts(quarantine, probes)
        invariant forall j: nat :: j in confirmed <==> j < i && Confirmed(reader, old(probes), lines, verdicts, j)
      {
        if reader.parses(lines[i]) {
          var key, dead := reader.key(lines[i]), verdicts[i].Dead?;
          CountsNext(quarantine, probes, key, dead, now);
          DeadRunNext(probes, Probe(key, dead), key);
          quarantine := Updated(quarantine, key, dead, now);
          probes := probes + [Probe(key, dead)];
          assert probes == old(probes) + ProbesOf(reader, lines, verdicts, i + 1);
          if dead && quarantine[key].confirmations >= 2 { confirmed := confirmed + {i}; }
        }
      }
      if apply && confirmed != {} {
        lines := Without(lines, confirmed, |lines|);
      } else if confirmed == {} {
        NothingGone(lines, |lines|);
      }
    }
  }

  ghost predicate Counts(quarantine: map<string, Entry>, probes: seq<Probe>) {
    && (forall k :: k in quarantine ==> quarantine[k].confirmations == DeadRun(probes, k) > 0)
    && (forall k :: k !in quarantine ==> DeadRun(probes, k) == 0)
  }

  /** A dead probe counts one up, any other answer forgets the key. */
  function Updated(quarantine: map<string, Entry>, key: string, dead: bool, now: int): map<string, Entry> {
    if !dead then quarantine - {key}
    else if key in quarantine then
      quarantine[key := quarantine[key].(confirmations := quarantine[key].confirmations + 1, lastSeenAt := now)]
    else quarantine[key := Entry(1, now, now)]
  }

  lemma CountsNext(quarantine: map<string, Entry>, probes: seq<Probe>, key: string, dead: bool, now: int)
    requires Counts(quarantine, probes)
    ensures Counts(Updated(quarantine, key, dead, now), probes + [Probe(key, dead)])
  {
    var q, p := Updated(quarantine, key, dead, now), probes + [Probe(key, dead)];
    forall k ensures (k in q ==> q[k].confirmations == DeadRun(p, k) > 0) && (k !in q ==> DeadRun(p, k) == 0) {
      DeadRunNext(probes, Probe(key, dead), k);
    }
  }

  lemma {:induction false} NothingGone(lines: Lines, n: nat)
    requires n <= |lines|
    ensures Without(lines, {}, n) == lines[..n]
  {
    if n > 0 { NothingGone(lines, n - 1); }
  }

  // ---- when is one scan enough? --------------------------------------------------------------

  /** No two probed lines of the pool share a fingerprint. */
  predicate Distinct(r: Reader, lines: Lines) {
    forall i, j :: 0 <= i < j < |lines| && r.parses(lines[i]) && r.parses(lines[j]) ==> r.key(lines[i]) != r.key(lines[j])
  }

  /** The nearest line before `n` with this fingerprint. */
  function Nearest(r: Reader, lines: Lines, n: nat, key: string): (k: nat)
    requires n <= |lines|
    ensures k <= n && (k > 0 ==> r.parses(lines[k - 1]) && r.key(lines[k - 1]) == key)
    ensures forall i :: k <= i < n && r.parses(lines[i]) ==> r.key(lines[i]) != key
  {
    if n == 0 then 0 else if r.parses(lines[n - 1]) && r.key(lines[n - 1]) == key then n else Nearest(r, lines, n - 1, key)
  }

  /** The run of a key within a scan: from the nearest line with that fingerprint, or from earlier scans. */
  lemma {:induction false} RunWithinScan(r: Reader, earlier: seq<Probe>, lines: Lines, verdicts: seq<Verdict>,
                                         n: nat, key: string)
    requires n <= |lines| == |verdicts|
    ensures var k := Nearest(r, lines, n, key); var run := DeadRun(earlier + ProbesOf(r, lines, verdicts, n), key);
      && (k == 0 ==> run == DeadRun(earlier, key))
      && (k > 0 ==> (run > 0 <==> verdicts[k - 1].Dead?))
  {
    if n == 0 {
      assert earlier + ProbesOf(r, lines, verdicts, 0) == earlier;
    } else {
      RunWithinScan(r, earlier, lines, verdicts, n - 1, key);
      if r.parses(lines[n - 1]) {
        var before, p := ProbesOf(r, lines, verdicts, n - 1), Probe(r.key(lines[n - 1]), verdicts[n - 1].Dead?);
        DeadRunNext(earlier + before, p, key);
        assert earlier + (before + [p]) == earlier + before + [p];
      }
    }
  }

  /** A line is confirmed if and only if it is dead now and its previous probe was dead as well: the probe of the
      nearest line with the same fingerprint in this scan or, if there is none, the last one of earlier scans. */
  lemma ConfirmedIff(r: Reader, earlier: seq<Probe>, lines: Lines, verdicts: seq<Verdict>, i: nat)
    requires i < |lines| == |verdicts| && r.parses(lines[i])
    ensures var k := Nearest(r, lines, i, r.key(lines[i]));
      Confirmed(r, earlier, lines, verdicts, i) <==>
        verdicts[i].Dead? && if k > 0 then verdicts[k - 1].Dead? else DeadRun(earlier, r.key(lines[i])) > 0
  {
    var key, p := r.key(lines[i]), Probe(r.key(lines[i]), verdicts[i].Dead?);
    RunWithinScan(r, earlier, lines, verdicts, i, key);
    var before := ProbesOf(r, lines, verdicts, i);
    DeadRunNext(earlier + before, p, key);
    assert earlier + (before + [p]) == earlier + before + [p];
  }

  /** With distinct fingerprints a confirmation takes two scans: the one that deletes the line and an earlier one
      in which its last probe was dead. */
  lemma DistinctLinesNeedTwoScans(r: Reader, earlier: seq<Probe>, lines: Lines, verdicts: seq<Verdict>, i: nat)
    requires i < |lines| == |verdicts| && r.parses(lines[i]) && Distinct(r, lines)
    ensures Confirmed(r, earlier, lines, verdicts, i) <==> verdicts[i].Dead? && DeadRun(earlier, r.key(lines[i])) > 0
    ensures verdicts[i].Dead? ==>
      DeadRun(earlier + ProbesOf(r, lines, verdicts, i + 1), r.key(lines[i])) == DeadRun(earlier, r.key(lines[i])) + 1
  {
    ConfirmedIff(r, earlier, lines, verdicts, i);
    var key, p := r.key(lines[i]), Probe(r.key(lines[i]), verdicts[i].Dead?);
    RunWithinScan(r, earlier, lines, verdicts, i, key);
    var before := ProbesOf(r, lines, verdicts, i);
    DeadRunNext(earlier + before, p, key);
    assert earlier + (before + [p]) == earlier + before + [p];
  }

  /** So one scan can delete a line that no earlier scan saw dead if and only if the nearest line before it with
      the same fingerprint is dead too: a duplicate confirms itself. */
  lemma OneScanIff(r: Reader, earlier: seq<Probe>, lines: Lines, verdicts: seq<Verdict>, i: nat)
    requires i < |lines| == |verdicts| && r.parses(lines[i]) && verdicts[i].Dead?
    requires DeadRun(earlier, r.key(lines[i])) == 0
    ensures Confirmed(r, earlier, lines, verdicts, i) <==>
      Nearest(r, lines, i, r.key(lines[i])) > 0 && verdicts[Nearest(r, lines, i, r.key(lines[i])) - 1].Dead?
  {
    ConfirmedIff(r, earlier, lines, verdicts, i);
  }

  lemma DuplicateConfirmsItself(r: Reader, line: string) returns (lines: Lines, verdicts: seq<Verdict>)
    requires r.parses(line)
    ensures |lines| == |verdicts| == 2 && Confirmed(r, [], lines, verdicts, 1)
  {
    lines, verdicts := [line, line], [Dead, Dead];
    ConfirmedIff(r, [], lines, verdicts, 1);
  }

  /** The positions below `n` that are not in `gone`, in order. */
  function Positions(gone: set<nat>, n: nat): (r: seq<nat>)
    ensures forall k :: 0 <= k < |r| ==> r[k] < n && r[k] !in gone
    ensures forall j, k :: 0 <= j < k < |r| ==> r[j] < r[k]
  {
    if n == 0 then [] else if n - 1 in gone then Positions(gone, n - 1) else Positions(gone, n - 1) + [n - 1]
  }

  lemma {:induction false} PositionsComplete(gone: set<nat>, n: nat, i: nat)
    requires i < n && i !in gone
    ensures i in Positions(gone, n)
  {
    if i < n - 1 { PositionsComplete(gone, n - 1, i); }
  }

  /** Removal keeps exactly the lines at the other positions, unchanged and in order. */
  lemma {:induction false} WithoutKeepsOthers(lines: Lines, gone: set<nat>, n: nat)
    requires n <= |lines|
    ensures |Without(lines, gone, n)| == |Positions(gone, n)|
    ensures forall k :: 0 <= k < |Positions(gone, n)| ==> Without(lines, gone, n)[k] == lines[Positions(gone, n)[k]]
  {
    if n > 0 { WithoutKeepsOthers(lines, gone, n - 1); }
  }
}

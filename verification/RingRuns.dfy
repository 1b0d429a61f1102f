/** Whole runs of one writer and any number of readers over a ring-buffer file:
    every reader's output is an in-order, duplicate-free part of what was written,
    missing only records that were evicted. */
module RingRuns {
  import opened RingModel
  import opened RingProofs

  /** A reader: its own cursor and everything it has returned. */
  datatype View = View(cur: Cursor, out: seq<seq<byte>>)

  datatype Sys = Sys(file: Ring, readers: map<int, View>)

  datatype Event = Append(src: seq<byte>) | Open(id: int) | Poll(id: int)

  ghost predicate Enabled(s: Sys, ev: Event, padding: nat) {
    match ev
    case Append(src) => Fits(s.file, src, padding)
    case Open(id) => id !in s.readers
    case Poll(id) => id in s.readers
  }

  /** Opening copies the file's cursor; polling appends what was read, if anything. */
  ghost predicate Steps(s: Sys, ev: Event, padding: nat, s': Sys) {
    && Enabled(s, ev, padding)
    && match ev
       case Append(src) => s' == Sys(Write(s.file, src, padding), s.readers)
       case Open(id) => s' == Sys(s.file, s.readers[id := View(s.file.cur, [])])
       case Poll(id) =>
         var v := s.readers[id];
         Readable(s.file, v.cur) ==>
           var r := Read(s.file, v.cur);
           s' == Sys(s.file, s.readers[id := View(r.cur, if r.data == [] then v.out else v.out + [r.data])])
  }

  /** What a reader has seen, as positions in the history. */
  datatype Track = Track(next: nat, got: seq<nat>)

  ghost predicate Ascending(xs: seq<nat>) {
    forall i, j :: 0 <= i < j < |xs| ==> xs[i] < xs[j]
  }

  /** The reader returned exactly the records at the positions got, in order; every
      record it passed over has been evicted. */
  ghost predicate Faithful(log: Log, v: View, t: Track) {
    && |log.pos| == |log.hist| + 1 && t.next <= |log.hist|
    && v.cur.head == log.pos[t.next]
    && Ascending(t.got) && |v.out| == |t.got|
    && (forall j :: 0 <= j < |t.got| ==> t.got[j] < t.next)
    && (forall j :: 0 <= j < |t.got| ==> v.out[j] == log.hist[t.got[j]])
    && (forall i :: 0 <= i < t.next ==> i in t.got || i < log.first)
  }

  ghost predicate Inv(s: Sys, log: Log, tracks: map<int, Track>) {
    && Holds(s.file, log) && tracks.Keys == s.readers.Keys
    && forall id :: id in tracks ==> Faithful(log, s.readers[id], tracks[id])
  }

  /** More history and more eviction keep a reader faithful. */
  lemma FaithfulLater(log: Log, log': Log, v: View, t: Track)
    requires Faithful(log, v, t)
    requires |log'.pos| == |log'.hist| + 1 && log.hist <= log'.hist && log.pos <= log'.pos && log.first <= log'.first
    ensures Faithful(log', v, t)
  {
  }

  /** A poll from the file: the next record still stored, or nothing. */
  lemma PollFaithful(file: Ring, log: Log, v: View, t: Track) returns (t': Track)
    requires Holds(file, log) && Faithful(log, v, t)
    ensures Readable(file, v.cur)
    ensures var r := Read(file, v.cur);
            && Faithful(log, View(r.cur, if r.data == [] then v.out else v.out + [r.data]), t')
            && (r.data == [] <==> r.cur.head == file.cur.tail && t'.got == t.got)
            && (r.data != [] ==> t'.got == t.got + [t'.next - 1])
  {
    ReadSpec(file, log, v.cur, t.next);
    var at := if t.next < log.first then log.first else t.next;
    t' := if at == |log.hist| then Track(at, t.got) else Track(at + 1, t.got + [at]);
    var r := Read(file, v.cur);
    var v' := View(r.cur, if r.data == [] then v.out else v.out + [r.data]);
    forall i | 0 <= i < t'.next ensures i in t'.got || i < log.first {
      if i < t.next {
        assert i in t.got ==> i in t'.got;
      } else if i == at {
        assert t'.got[|t.got|] == at;
      }
    }
  }

  lemma StepKeeps(s: Sys, log: Log, tracks: map<int, Track>, ev: Event, padding: nat, s': Sys)
    returns (log': Log, tracks': map<int, Track>)
    requires Inv(s, log, tracks) && Steps(s, ev, padding, s')
    ensures Inv(s', log', tracks')
    ensures log'.hist == log.hist + Appends([ev])
    ensures log.first <= log'.first && log.pos <= log'.pos
  {
    match ev
    case Append(src) =>
      log' := WriteAppends(s.file, log, src, padding, s'.file);
      tracks' := tracks;
      assert Appends([ev]) == [src];
      forall id | id in tracks' ensures Faithful(log', s'.readers[id], tracks'[id]) {
        FaithfulLater(log, log', s.readers[id], tracks[id]);
      }
    case Open(id) =>
      log' := log;
      tracks' := tracks[id := Track(log.first, [])];
      assert Appends([ev]) == [];
    case Poll(id) =>
      log' := log;
      var t := PollFaithful(s.file, log, s.readers[id], tracks[id]);
      tracks' := tracks[id := t];
      assert Appends([ev]) == [];
  }

  /** What a run writes. */
  ghost function Appends(evs: seq<Event>): seq<seq<byte>> {
    if evs == [] then []
    else (if evs[0].Append? then [evs[0].src] else []) + Appends(evs[1..])
  }

  ghost predicate Run(states: seq<Sys>, evs: seq<Event>, padding: nat) {
    && |states| == |evs| + 1
    && forall i :: 0 <= i < |evs| ==> Steps(states[i], evs[i], padding, states[i + 1])
  }

  /** A fresh file: any bytes, both cursors at zero, no readers. */
  ghost predicate Fresh(s: Sys) {
    && |s.file.mem| >= PREFIX && s.file.cur == Cursor(0, 0) && s.readers == map[]
  }

  lemma {:induction false} AppendsSnoc(evs: seq<Event>, ev: Event)
    ensures Appends(evs + [ev]) == Appends(evs) + Appends([ev])
  {
    if evs == [] {
      assert evs + [ev] == [ev];
    } else {
      AppendsSnoc(evs[1..], ev);
      assert (evs + [ev])[1..] == evs[1..] + [ev];
    }
  }

  /** In every run from a fresh file, after every step, the file holds a suffix of
      exactly what was appended and every reader is faithful to it. */
  lemma {:induction false} RunFaithful(states: seq<Sys>, evs: seq<Event>, padding: nat)
    returns (log: Log, tracks: map<int, Track>)
    requires Run(states, evs, padding) && Fresh(states[0])
    ensures Inv(states[|evs|], log, tracks) && log.hist == Appends(evs)
    decreases |evs|
  {
    if evs == [] {
      log, tracks := Log([], [0], 0), map[];
      assert Records(states[0].file.mem, [], [0], 0);
    } else {
      var n := |evs| - 1;
      var log0, tracks0 := RunFaithful(states[..n + 1], evs[..n], padding);
      log, tracks := StepKeeps(states[n], log0, tracks0, evs[n], padding, states[n + 1]);
      assert evs[..n] + [evs[n]] == evs;
      AppendsSnoc(evs[..n], evs[n]);
    }
  }
}

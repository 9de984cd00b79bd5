/** The profile watcher: one wake-up after another, repeats swallowed. */
module Watch {
  import opened Wrappers
  import opened Names
  import opened Sysfs
  import opened Discovery
  import opened Hardware

  /** What a wake-up that read `reading` reports, given the last value reported. A failed
      read reports nothing. */
  function Noticed(last: Option<PowerProfile>, reading: Option<PowerProfile>): Option<PowerProfile> {
    if reading.Some? && last != reading then reading else None
  }

  // ── removing adjacent repeats ─────────────────────────────────────────────

  function Last(s: seq<PowerProfile>): Option<PowerProfile> {
    if s == [] then None else Some(s[|s| - 1])
  }

  function Destutter(s: seq<PowerProfile>): seq<PowerProfile> {
    if s == [] then []
    else
      var front := s[..|s| - 1];
      if Last(front) == Last(s) then Destutter(front) else Destutter(front) + [s[|s| - 1]]
  }

  ghost predicate NoRepeats(s: seq<PowerProfile>) {
    forall i, j | 0 <= i < j < |s| && j == i + 1 :: s[i] != s[j]
  }

  function Copies(p: PowerProfile, n: nat): seq<PowerProfile> {
    if n == 0 then [] else Copies(p, n - 1) + [p]
  }

  /** `counts[i]` copies of `s[i]`, one after the other. */
  function Repeat(s: seq<PowerProfile>, counts: seq<nat>): seq<PowerProfile>
    requires |s| == |counts|
  {
    if s == [] then []
    else Repeat(s[..|s| - 1], counts[..|s| - 1]) + Copies(s[|s| - 1], counts[|s| - 1])
  }

  ghost predicate Positive(counts: seq<nat>) {
    forall i | 0 <= i < |counts| :: counts[i] > 0
  }

  lemma DestutterSnoc(s: seq<PowerProfile>, p: PowerProfile)
    ensures Destutter(s + [p]) == if Last(s) == Some(p) then Destutter(s) else Destutter(s) + [p]
    ensures Last(s + [p]) == Some(p)
  {
    assert (s + [p])[..|s|] == s;
  }

  lemma {:induction false} DestutterShape(s: seq<PowerProfile>)
    ensures Last(Destutter(s)) == Last(s)
    ensures NoRepeats(Destutter(s))
  {
    if s != [] {
      DestutterShape(s[..|s| - 1]);
    }
  }

  lemma RepeatLast(d: seq<PowerProfile>, c: seq<nat>)
    requires |d| == |c| && d != []
    ensures Repeat(d, c) == Repeat(d[..|d| - 1], c[..|d| - 1]) + Copies(d[|d| - 1], c[|d| - 1])
  {
  }

  lemma OneMoreCopy(p: PowerProfile, n: nat)
    ensures Copies(p, n + 1) == Copies(p, n) + [p]
  {
  }

  lemma RepeatLonger(d: seq<PowerProfile>, c: seq<nat>)
    requires |d| == |c| && d != []
    ensures Repeat(d, c[|d| - 1 := c[|d| - 1] + 1]) == Repeat(d, c) + [d[|d| - 1]]
  {
    var n := |d| - 1;
    var longer := c[n := c[n] + 1];
    RepeatLast(d, c);
    RepeatLast(d, longer);
    OneMoreCopy(d[n], c[n]);
    hide Repeat, Copies;
    assert longer[..n] == c[..n];
    Regroup(Repeat(d[..n], c[..n]), Copies(d[n], c[n]), [d[n]]);
  }

  lemma Regroup(a: seq<PowerProfile>, b: seq<PowerProfile>, c: seq<PowerProfile>)
    ensures a + (b + c) == (a + b) + c
  {
  }

  lemma RepeatOnce(d: seq<PowerProfile>, c: seq<nat>, p: PowerProfile)
    requires |d| == |c|
    ensures Repeat(d + [p], c + [1]) == Repeat(d, c) + [p]
  {
    var d', c' := d + [p], c + [1];
    RepeatLast(d', c');
    OneMoreCopy(p, 0);
    assert Copies(p, 0) == [];
    hide Repeat, Copies;
    assert d'[..|d|] == d && c'[..|d|] == c;
    assert [] + [p] == [p];
  }

  /** Every sequence is its destuttering with each value repeated at least once. */
  lemma {:induction false} DestutterCovers(s: seq<PowerProfile>) returns (counts: seq<nat>)
    ensures |counts| == |Destutter(s)| && Positive(counts) && Repeat(Destutter(s), counts) == s
  {
    assert Destutter([]) == [] && Repeat([], []) == [];
    hide Destutter, Repeat, NoRepeats;
    if s == [] {
      counts := [];
    } else {
      var front, p := s[..|s| - 1], s[|s| - 1];
      var c := DestutterCovers(front);
      DestutterShape(front);
      counts := CoversSnoc(front, p, c);
      assert front + [p] == s;
    }
  }

  /** The counts after one more reading: the last one grows, or a new one starts. */
  lemma CoversSnoc(front: seq<PowerProfile>, p: PowerProfile, c: seq<nat>) returns (counts: seq<nat>)
    requires |c| == |Destutter(front)| && Positive(c) && Repeat(Destutter(front), c) == front
    requires Last(Destutter(front)) == Last(front)
    ensures |counts| == |Destutter(front + [p])| && Positive(counts)
    ensures Repeat(Destutter(front + [p]), counts) == front + [p]
  {
    hide Destutter, Repeat;
    var d := Destutter(front);
    DestutterSnoc(front, p);
    if Last(front) == Some(p) {
      counts := c[|c| - 1 := c[|c| - 1] + 1];
      RepeatLonger(d, c);
    } else {
      counts := c + [1];
      RepeatOnce(d, c, p);
    }
  }

  lemma {:induction false} DestutterRun(s: seq<PowerProfile>, p: PowerProfile, n: nat)
    requires n > 0
    ensures Destutter(s + Copies(p, n)) == if Last(s) == Some(p) then Destutter(s) else Destutter(s) + [p]
    ensures Last(s + Copies(p, n)) == Some(p)
  {
    var t := s + Copies(p, n - 1);
    assert s + Copies(p, n) == t + [p];
    DestutterSnoc(t, p);
    if n == 1 {
      assert t == s;
    } else {
      DestutterRun(s, p, n - 1);
    }
  }

  /** And it is the only sequence without adjacent repeats of which that is true. */
  lemma {:induction false} DestutterUnique(r: seq<PowerProfile>, counts: seq<nat>)
    requires |r| == |counts| && NoRepeats(r) && Positive(counts)
    ensures Destutter(Repeat(r, counts)) == r && Last(Repeat(r, counts)) == Last(r)
  {
    if r != [] {
      var n := |r| - 1;
      DestutterUnique(r[..n], counts[..n]);
      assert Last(r[..n]) != Some(r[n]);
      DestutterRun(Repeat(r[..n], counts[..n]), r[n], counts[n]);
      assert r == r[..n] + [r[n]];
      hide Destutter;
    }
  }

  // ── the watcher ───────────────────────────────────────────────────────────

  /** What reading the open handle gives, with every failure alike. */
  function Reading(m: Machine, f: Path): Option<PowerProfile> {
    match Consume(m, f) case Ok(p) => Some(p) case Err(_) => None
  }

  /** The values successfully read over a series of wake-ups, each finding its own sysfs. */
  function Readings(wakes: seq<Machine>, f: Path): seq<PowerProfile> {
    if wakes == [] then []
    else
      Readings(wakes[..|wakes| - 1], f)
      + match Reading(wakes[|wakes| - 1], f) case Some(p) => [p] case None => []
  }

  class ProfileWatcher {
    const file: Path
    var last: Option<PowerProfile>
    ghost var seen: seq<PowerProfile>
    ghost var emitted: seq<PowerProfile>

    ghost predicate Valid()
      reads this
    {
      emitted == Destutter(seen) && last == Last(seen)
    }

    /** Nothing has been reported yet, not even the value the arming read saw. */
    constructor (file: Path)
      ensures Valid() && this.file == file && seen == [] && emitted == []
    {
      this.file := file;
      last := None;
      seen := [];
      emitted := [];
    }

    /** Waits for the next change. `wakes` are the wake-ups that arrive before the caller drops
        the wait; if none of them brings a change, the wait is cancelled where it stands. */
    method NextChange(wakes: seq<Machine>) returns (change: Option<PowerProfile>, used: nat)
      requires Valid()
      modifies this`last, this`seen, this`emitted
      ensures Valid() && used <= |wakes|
      ensures seen == old(seen) + Readings(wakes[..used], file)
      ensures emitted == old(emitted) + if change.Some? then [change.value] else []
      ensures change.None? ==> used == |wakes|
      ensures forall i | 0 <= i < (if change.Some? then used - 1 else used) ::
                Noticed(old(last), Reading(wakes[i], file)).None?
      ensures change.Some? ==> used > 0 && Noticed(old(last), Reading(wakes[used - 1], file)) == change
      ensures last == if change.Some? then change else old(last)
    {
      hide Reading, Destutter;
      used := 0;
      while used < |wakes|
        invariant 0 <= used <= |wakes|
        invariant Valid() && emitted == old(emitted) && last == old(last)
        invariant forall i | 0 <= i < used :: Noticed(old(last), Reading(wakes[i], file)).None?
        invariant seen == old(seen) + Readings(wakes[..used], file)
      {
        var value := Reading(wakes[used], file);
        assert wakes[..used + 1][..used] == wakes[..used];
        used := used + 1;
        if value.Some? {
          DestutterSnoc(seen, value.value);
          seen := seen + [value.value];
          if last != value {
            last := value;
            emitted := emitted + [value.value];
            return value, used;
          }
        }
      }
      return None, used;
    }
  }

  /** Opening performs the arming read, so there is a watcher exactly if the profile can be
      read at that moment; otherwise the daemon runs without one. */
  method Open(m: Machine) returns (w: Option<ProfileWatcher>)
    ensures w.Some? <==> GetProfile(m).Ok?
    ensures w.Some? ==> fresh(w.value) && w.value.Valid() && w.value.seen == []
                        && Some(w.value.file) == ProfileFile(m)
  {
    var f := WatchedFile(m);
    if f.Ok? {
      var armed := Reading(m, f.value);
      if armed.Some? {
        var watcher := new ProfileWatcher(f.value);
        return Some(watcher);
      }
    }
    return None;
  }

  function Flatten(batches: seq<seq<Machine>>): seq<Machine> {
    if batches == [] then [] else Flatten(batches[..|batches| - 1]) + batches[|batches| - 1]
  }

  lemma {:induction false} ReadingsSplit(a: seq<Machine>, b: seq<Machine>, f: Path)
    ensures Readings(a + b, f) == Readings(a, f) + Readings(b, f)
  {
    if b == [] {
      assert a + b == a;
    } else {
      assert (a + b)[..|a + b| - 1] == a + b[..|b| - 1];
      ReadingsSplit(a, b[..|b| - 1], f);
    }
  }

  lemma ReadingsNone(f: Path)
    ensures Readings([], f) == []
  {
  }

  /** The watcher inside the event loop. Each batch holds the wake-ups up to a moment when another
      arm of the loop wins and the wait is dropped and started again. Over any number of batches,
      what is reported is the destuttering of what was read: nothing is lost to a cancellation
      or a failed read, and nothing is reported twice in a row. */
  method Serve(w: ProfileWatcher, batches: seq<seq<Machine>>) returns (reported: seq<PowerProfile>)
    requires w.Valid() && w.seen == []
    modifies w
    ensures w.Valid() && w.seen == Readings(Flatten(batches), w.file)
    ensures reported == Destutter(Readings(Flatten(batches), w.file))
  {
    hide Reading, Readings;
    ReadingsNone(w.file);
    reported := [];
    var i := 0;
    while i < |batches|
      invariant 0 <= i <= |batches|
      invariant w.Valid() && reported == w.emitted
      invariant w.seen == Readings(Flatten(batches[..i]), w.file)
    {
      var batch := batches[i];
      var j := 0;
      ghost var before := w.seen;
      assert batch[..0] == [];
      while j < |batch|
        invariant 0 <= j <= |batch|
        invariant w.Valid() && reported == w.emitted
        invariant w.seen == before + Readings(batch[..j], w.file)
        decreases |batch| - j
      {
        var change, used := w.NextChange(batch[j..]);
        ReadingsSplit(batch[..j], batch[j..][..used], w.file);
        assert batch[..j] + batch[j..][..used] == batch[..j + used];
        if change.Some? {
          reported := reported + [change.value];
        }
        j := j + used;
      }
      assert batch[..j] == batch;
      ReadingsSplit(Flatten(batches[..i]), batch, w.file);
      assert batches[..i + 1][..i] == batches[..i];
      i := i + 1;
    }
    assert batches[..i] == batches;
  }
}

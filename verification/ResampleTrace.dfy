/** What calls do to the channels of a resampler, and what whole runs of them amount to. */
module ResampleTrace {
  import opened Arith
  import opened ResampleSpec
  import opened ResampleRate
  import opened ResampleMemory

  // History and pending samples, how many of them are pending, and where the next output stands.
  datatype Chan = Chan(buffered: seq<real>, magic: nat, last: nat, frac: nat)

  // The rate, the filter length now and the longest so far, and whether anything has been processed.
  datatype Snapshot = Snapshot(num: nat, den: nat, len: nat, longest: nat, started: bool, chans: seq<Chan>)

  ghost predicate IsSnapshot(s: Snapshot) {
    && s.num > 0 && s.den > 0 && s.len > 0 && s.len % 4 == 0
    && forall i :: 0 <= i < |s.chans| ==> IsChan(s, s.chans[i])
  }

  // No channel holds more than the longest filter so far needs, and before the start all is silence.
  ghost predicate IsChan(s: Snapshot, c: Chan) {
    && s.len > 0 && |c.buffered| == s.len - 1 + c.magic && c.frac < s.den && s.len + 2 * c.magic <= s.longest
    && (!s.started ==> c.magic == 0 && c.buffered == Zeros(s.len - 1))
  }

  // What a caller does with a channel or with the whole resampler.
  datatype Event =
    | Feed(i: nat, input: seq<real>, outLen: nat)
    | Length(len: nat)
    | Rate(num: nat, den: nat, len: nat)

  datatype Result = Result(inUsed: nat, out: seq<real>)

  predicate Callable(e: Event, count: nat) {
    match e
    case Feed(i, _, _) => i < count
    case Length(len) => 0 < len && len % 4 == 0
    case Rate(num, den, len) => num > 0 && den > 0 && 0 < len && len % 4 == 0
  }

  // The input that channel i uses in a call, and the output it makes.
  function UsedIn(e: Event, r: Result, i: nat): seq<real> {
    if e.Feed? && e.i == i && r.inUsed <= |e.input| then e.input[..r.inUsed] else []
  }

  function MadeIn(e: Event, r: Result, i: nat): seq<real> { if e.Feed? && e.i == i then r.out else [] }

  // The table of filters, den of them, with the values that tap gives by length, denominator and index.
  function Table(tap: (nat, nat, nat) -> real, den: nat, len: nat): (t: seq<real>)
    ensures |t| == den * len
  {
    MulLe(0, den, len);
    seq(den * len, k requires 0 <= k < den * len => tap(len, den, k))
  }

  // The filter that channel i goes on with.
  ghost function FilterIn(tap: (nat, nat, nat) -> real, s: Snapshot, i: nat): (f: Filter)
    requires IsSnapshot(s) && i < |s.chans|
    ensures IsFilter(f) && f.den == s.den && f.num == s.num && f.len == s.len
  {
    var c := s.chans[i];
    assert IsChan(s, c);
    Filter(s.num, s.den, s.len, Table(tap, s.den, s.len), c.buffered[..s.len - 1], c.last, c.frac)
  }

  // What the channel has still to work on: the pending samples behind the history, then the input.
  function Signal(buffered: seq<real>, hist: nat, input: seq<real>): (x: seq<real>)
    requires hist <= |buffered|
    ensures |x| == |buffered| - hist + |input|
  {
    buffered[hist..] + input
  }

  // How a call ends for the channel: what was written, what is left, and where the next output stands.
  ghost predicate RunEnds(f: Filter, buffered: seq<real>, magic: nat, input: seq<real>, outLen: nat,
                          inUsed: nat, out: seq<real>, magic': nat, last: nat, frac: nat)
  {
    && IsFilter(f) && |buffered| >= f.len - 1 && inUsed <= |input| && |out| <= outLen && frac < f.den && magic' <= magic
    && out == Outputs(f, Signal(buffered, f.len - 1, input), 0, |out|)
    && (|out| < outLen ==> inUsed == |input| && magic' == 0)
    && (magic == 0 && (input == [] || outLen == 0) ==> inUsed == 0 && |out| == 0)
    && (inUsed + magic - magic' + last - f.start) * f.den + frac == f.phase + |out| * f.num
    && AsMany(f, magic - magic' + inUsed, |out|, |out| < outLen && input != [])
  }

  // No output starts behind the samples that were used; with room to spare, there are just as many outputs
  // as start before their end.
  ghost predicate AsMany(f: Filter, used: nat, made: nat, spare: bool) {
    && (made > 0 ==> Stand(f, made - 1) < (used + 1) * f.den)
    && (spare ==> IsCeiling(f, used, made))
  }

  // ---------- one call ----------

  // speex_resampler_process_float on channel i: the outputs are those of its filter over the pending samples
  // and the input, and the channel keeps the latest of what it had and what it used.
  ghost predicate Processed(tap: (nat, nat, nat) -> real, s: Snapshot, i: nat, input: seq<real>, outLen: nat, r: Result,
                      s': Snapshot)
    requires IsSnapshot(s) && i < |s.chans|
  {
    && |s'.chans| == |s.chans| && r.inUsed <= |input|
    && s' == s.(chans := s.chans[i := s'.chans[i]], started := s.started || (input != [] && outLen > 0))
    && var c, c' := s.chans[i], s'.chans[i];
       && RunEnds(FilterIn(tap, s, i), c.buffered, c.magic, input, outLen, r.inUsed, r.out, c'.magic, c'.last, c'.frac)
       && c'.buffered == Latest(c.buffered + input[..r.inUsed], s.len - 1 + c'.magic)
  }

  // A channel when the length changes: the latest samples stay, and once started the centre as well.
  ghost predicate Relaid(s: Snapshot, c: Chan, len: nat, c': Chan) {
    && len > 0 && c'.frac == c.frac && c'.buffered == Latest(c.buffered, len - 1 + c'.magic)
    && c'.magic == (if s.started then NewMagic(s.len, c.magic, len) else 0)
    && c'.last == (if s.started then NewLast(s.len, c.magic, len, c.last) else c.last)
  }

  // The end of update_filter.
  ghost predicate Relength(s: Snapshot, len: nat, s': Snapshot) {
    && |s'.chans| == |s.chans|
    && s' == s.(len := len, longest := if s.started && s.longest > len then s.longest else len, chans := s'.chans)
    && forall i :: 0 <= i < |s.chans| ==> Relaid(s, s.chans[i], len, s'.chans[i])
  }

  // The phases carried over to a new denominator.
  ghost function Rescaled(chans: seq<Chan>, den: nat, oldDen: nat): (r: seq<Chan>)
    requires oldDen > 0 && den > 0 && forall i :: 0 <= i < |chans| ==> chans[i].frac < oldDen
    ensures |r| == |chans|
  {
    seq(|chans|, i requires 0 <= i < |chans| =>
      RescaleInRange(chans[i].frac, den, oldDen);
      chans[i].(frac := Rescale(chans[i].frac, den, oldDen)))
  }

  // speex_resampler_set_rate_frac
  ghost predicate Rerated(s: Snapshot, ratioNum: nat, ratioDen: nat, len: nat, s': Snapshot)
    requires IsSnapshot(s)
  {
    && s'.num > 0 && s'.den > 0 && LowestTerms(s'.num, s'.den) && s'.num * ratioDen == ratioNum * s'.den
    && PhasesFit(s)
    && Relength(s.(num := s'.num, den := s'.den, chans := Rescaled(s.chans, s'.den, s.den)), len, s')
  }

  ghost predicate PhasesFit(s: Snapshot) { forall i :: 0 <= i < |s.chans| ==> s.chans[i].frac < s.den }

  ghost predicate Step(tap: (nat, nat, nat) -> real, s: Snapshot, e: Event, r: Result, s': Snapshot)
    requires IsSnapshot(s)
  {
    && Callable(e, |s.chans|)
    && match e
       case Feed(i, input, outLen) => Processed(tap, s, i, input, outLen, r, s')
       case Length(len) => r == Result(0, []) && Relength(s, len, s')
       case Rate(num, den, len) => r == Result(0, []) && Rerated(s, num, den, len, s')
  }

  // Every call leaves the latest of what a channel had and what it used.
  lemma BufferStep(tap: (nat, nat, nat) -> real, s: Snapshot, e: Event, r: Result, s': Snapshot, i: nat)
    requires IsSnapshot(s) && Step(tap, s, e, r, s') && i < |s.chans|
    ensures |s'.chans| == |s.chans|
    ensures var b := s'.chans[i].buffered; b == Latest(s.chans[i].buffered + UsedIn(e, r, i), |b|)
  {
    hide RunEnds, Latest, FilterIn, NewMagic, NewLast, LowestTerms, IsSnapshot;
    var b := s.chans[i].buffered;
    LatestAll(b);
    LatestLength(s'.chans[i].buffered);
    assert b + [] == b;
    if e.Rate? {
      var t := s.(num := s'.num, den := s'.den, chans := Rescaled(s.chans, s'.den, s.den));
      assert Relaid(t, t.chans[i], e.len, s'.chans[i]);
    }
  }

  lemma LatestAll(b: seq<real>)
    ensures Latest(b, |b|) == b
  {
  }

  lemma LatestLength(b: seq<real>)
    ensures forall d, n: nat :: b == Latest(d, n) ==> n == |b|
  {
  }

  // ---------- whole runs ----------

  ghost predicate IsTrace(tap: (nat, nat, nat) -> real, events: seq<Event>, results: seq<Result>, trace: seq<Snapshot>)
  {
    && |results| == |events| && |trace| == |events| + 1
    && (forall k :: 0 <= k < |trace| ==> IsSnapshot(trace[k]))
    && forall k :: 0 <= k < |events| ==> Step(tap, trace[k], events[k], results[k], trace[k + 1])
  }

  // What a channel that had b keeps over the first n calls: always the latest, as many as fit.
  ghost function Kept(b: seq<real>, events: seq<Event>, results: seq<Result>, trace: seq<Snapshot>, i: nat,
                      n: nat): (d: seq<real>)
    requires n <= |events| == |results| && |trace| == |events| + 1 && forall k :: 0 <= k <= n ==> i < |trace[k].chans|
  {
    if n == 0 then b
    else Latest(Kept(b, events, results, trace, i, n - 1) + UsedIn(events[n - 1], results[n - 1], i),
                |trace[n].chans[i].buffered|)
  }

  lemma {:induction false} SameChannels(tap: (nat, nat, nat) -> real, events: seq<Event>, results: seq<Result>,
                                        trace: seq<Snapshot>, n: nat)
    requires IsTrace(tap, events, results, trace) && n <= |events|
    ensures |trace[n].chans| == |trace[0].chans|
  {
    hide IsSnapshot, Processed, Relength, Rerated, Callable;
    if n > 0 {
      SameChannels(tap, events, results, trace, n - 1);
      assert Step(tap, trace[n - 1], events[n - 1], results[n - 1], trace[n]);
      ChannelsStay(tap, trace[n - 1], events[n - 1], results[n - 1], trace[n]);
    }
  }

  lemma ChannelsStay(tap: (nat, nat, nat) -> real, s: Snapshot, e: Event, r: Result, s': Snapshot)
    requires IsSnapshot(s) && Step(tap, s, e, r, s')
    ensures |s'.chans| == |s.chans|
  {
  }

  // The buffer of every channel is just that, whatever was called in between.
  lemma {:induction false} BufferIsKept(tap: (nat, nat, nat) -> real, events: seq<Event>, results: seq<Result>,
                                        trace: seq<Snapshot>, i: nat, n: nat)
    requires IsTrace(tap, events, results, trace) && n <= |events| && i < |trace[0].chans|
    ensures forall k :: 0 <= k <= n ==> i < |trace[k].chans|
    ensures trace[n].chans[i].buffered == Kept(trace[0].chans[i].buffered, events, results, trace, i, n)
  {
    hide IsSnapshot, Step, Latest, UsedIn;
    forall k | 0 <= k <= n ensures i < |trace[k].chans| {
      SameChannels(tap, events, results, trace, k);
    }
    if n > 0 {
      BufferIsKept(tap, events, results, trace, i, n - 1);
      BufferStep(tap, trace[n - 1], events[n - 1], results[n - 1], trace[n], i);
    }
  }

  // Call k ends as its channel's filter does with the samples the channel has kept up to then and the new
  // input: its outputs, and how many of them, what it used, and where the next output stands.
  ghost predicate PutsOut(tap: (nat, nat, nat) -> real, events: seq<Event>, results: seq<Result>, trace: seq<Snapshot>,
                          k: nat)
    requires IsTrace(tap, events, results, trace) && k < |events| && events[k].Feed?
  {
    && (forall j :: 0 <= j <= k + 1 ==> events[k].i < |trace[j].chans|)
    && var e, r, s, c' := events[k], results[k], trace[k], trace[k + 1].chans[events[k].i];
    var b := Kept(trace[0].chans[e.i].buffered, events, results, trace, e.i, k);
    && s.len - 1 <= |b| && FilterIn(tap, s, e.i).past == b[..s.len - 1]
    && RunEnds(FilterIn(tap, s, e.i), b, |b| - (s.len - 1), e.input, e.outLen, r.inUsed, r.out, c'.magic, c'.last,
               c'.frac)
  }

  lemma HeldIn(tap: (nat, nat, nat) -> real, s: Snapshot, i: nat)
    requires IsSnapshot(s) && i < |s.chans|
    ensures var c := s.chans[i];
            |c.buffered| == s.len - 1 + c.magic && FilterIn(tap, s, i).past == c.buffered[..s.len - 1]
  {
    assert IsChan(s, s.chans[i]);
  }

  lemma OutputsOfTrace(tap: (nat, nat, nat) -> real, events: seq<Event>, results: seq<Result>, trace: seq<Snapshot>,
                       k: nat)
    requires IsTrace(tap, events, results, trace) && k < |events| && events[k].Feed?
    ensures PutsOut(tap, events, results, trace, k)
  {
    hide RunEnds, IsSnapshot, Kept, FilterIn;
    assert Step(tap, trace[k], events[k], results[k], trace[k + 1]);
    SameChannels(tap, events, results, trace, k + 1);
    BufferIsKept(tap, events, results, trace, events[k].i, k);
    HeldIn(tap, trace[k], events[k].i);
  }

  lemma TraceMore(tap: (nat, nat, nat) -> real, events: seq<Event>, k: nat, results: seq<Result>, trace: seq<Snapshot>,
                  r: Result, s: Snapshot)
    requires k < |events| && IsTrace(tap, events[..k], results, trace) && IsSnapshot(s)
    requires Step(tap, trace[k], events[k], r, s)
    ensures IsTrace(tap, events[..k + 1], results + [r], trace + [s])
  {
    hide IsSnapshot, Step;
    var es, rs, ts := events[..k + 1], results + [r], trace + [s];
    forall j | 0 <= j < k + 1 ensures IsSnapshot(ts[j]) && Step(tap, ts[j], es[j], rs[j], ts[j + 1]) {
      if j < k {
        assert Step(tap, trace[j], events[..k][j], results[j], trace[j + 1]);
      }
    }
  }

  // Of the samples heard, d holds the latest k, in order and with silence before them.
  ghost predicate Genuine(heard: seq<real>, k: nat, d: seq<real>) {
    k <= |heard| && k <= |d| && d == Zeros(|d| - k) + heard[|heard| - k..]
  }

  lemma GenuineLatest(heard: seq<real>, k: nat, d: seq<real>, n: nat)
    requires Genuine(heard, k, d)
    ensures Genuine(heard, Min(k, n), Latest(d, n))
  {
  }

  lemma GenuineMore(heard: seq<real>, k: nat, d: seq<real>, more: seq<real>)
    requires Genuine(heard, k, d)
    ensures Genuine(heard + more, k + |more|, d + more)
  {
    assert (heard + more)[|heard| - k..] == heard[|heard| - k..] + more;
  }

  lemma GenuineStep(heard: seq<real>, k: nat, d: seq<real>, more: seq<real>, n: nat)
    requires Genuine(heard, k, d)
    ensures Genuine(heard + more, Min(k + |more|, n), Latest(d + more, n))
  {
    GenuineMore(heard, k, d, more);
    GenuineLatest(heard + more, k + |more|, d + more, n);
  }

  // How many of k samples are still there after the first n calls.
  ghost function StillThere(k: nat, events: seq<Event>, results: seq<Result>, trace: seq<Snapshot>, i: nat, n: nat): nat
    requires n <= |events| == |results| && |trace| == |events| + 1 && forall j :: 0 <= j <= n ==> i < |trace[j].chans|
  {
    if n == 0 then k
    else Min(StillThere(k, events, results, trace, i, n - 1) + |UsedIn(events[n - 1], results[n - 1], i)|,
             |trace[n].chans[i].buffered|)
  }

  // All input that channel i has used in the first n calls, and all output it has made.
  ghost function Used(events: seq<Event>, results: seq<Result>, i: nat, n: nat): seq<real>
    requires n <= |events| == |results|
  {
    if n == 0 then [] else Used(events, results, i, n - 1) + UsedIn(events[n - 1], results[n - 1], i)
  }

  ghost function Made(events: seq<Event>, results: seq<Result>, i: nat, n: nat): seq<real>
    requires n <= |events| == |results|
  {
    if n == 0 then [] else Made(events, results, i, n - 1) + MadeIn(events[n - 1], results[n - 1], i)
  }

  // The samples that a channel still has are the latest of all it has heard, in their order, and only
  // silence stands before them.
  lemma {:induction false} OrderIsKept(tap: (nat, nat, nat) -> real, events: seq<Event>, results: seq<Result>,
                                       trace: seq<Snapshot>, i: nat, n: nat, heard: seq<real>, k: nat)
    requires IsTrace(tap, events, results, trace) && n <= |events| && i < |trace[0].chans|
    requires Genuine(heard, k, trace[0].chans[i].buffered)
    ensures forall j :: 0 <= j <= n ==> i < |trace[j].chans|
    ensures Genuine(heard + Used(events, results, i, n), StillThere(k, events, results, trace, i, n),
                    trace[n].chans[i].buffered)
  {
    hide IsSnapshot, Step, Latest, UsedIn, Genuine;
    BufferIsKept(tap, events, results, trace, i, n);
    if n == 0 {
      assert heard + [] == heard;
    } else {
      OrderIsKept(tap, events, results, trace, i, n - 1, heard, k);
      BufferStep(tap, trace[n - 1], events[n - 1], results[n - 1], trace[n], i);
      var more := UsedIn(events[n - 1], results[n - 1], i);
      GenuineStep(heard + Used(events, results, i, n - 1), StillThere(k, events, results, trace, i, n - 1),
          trace[n - 1].chans[i].buffered, more, |trace[n].chans[i].buffered|);
      assert (heard + Used(events, results, i, n - 1)) + more == heard + Used(events, results, i, n);
    }
  }

  // ---------- the time axis ----------

  // The input sample under the centre of the filter, when so many have been heard.
  function Centre(s: Snapshot, i: nat, heard: nat): int
    requires i < |s.chans|
  {
    heard - s.len / 2 - s.chans[i].magic + s.chans[i].last
  }

  // Centre and phase, in den-ths of a sample.
  function Place(s: Snapshot, i: nat, heard: nat): int
    requires i < |s.chans|
  {
    Centre(s, i, heard) * s.den + s.chans[i].frac
  }

  // Where the centre goes, given its distance from the oldest pending sample.
  lemma CentreStep(f: Filter, buffered: seq<real>, magic: nat, input: seq<real>, outLen: nat,
                   inUsed: nat, out: seq<real>, magic': nat, last: nat, frac: nat, origin: int)
    requires RunEnds(f, buffered, magic, input, outLen, inUsed, out, magic', last, frac)
    ensures inUsed <= |input|
    ensures (origin + inUsed - magic' + last) * f.den + frac
            == (origin - magic + f.start) * f.den + f.phase + |out| * f.num
  {
    var way := inUsed + magic - magic' + last - f.start;
    MulDiff(origin + inUsed - magic' + last, origin - magic + f.start, f.den);
    assert (origin + inUsed - magic' + last) - (origin - magic + f.start) == way;
  }

  // A change of length or rate in a started resampler leaves the centre over the same sample.
  lemma CentreStays(tap: (nat, nat, nat) -> real, s: Snapshot, e: Event, r: Result, s': Snapshot, i: nat, heard: nat)
    requires IsSnapshot(s) && Step(tap, s, e, r, s') && i < |s.chans| && s.started && !e.Feed?
    ensures |s'.chans| == |s.chans| && Centre(s', i, heard) == Centre(s, i, heard)
  {
    hide Latest, LowestTerms, NewMagic, NewLast, Rescale, IsChan;
    assert IsChan(s, s.chans[i]);
    if e.Rate? {
      var t := s.(num := s'.num, den := s'.den, chans := Rescaled(s.chans, s'.den, s.den));
      assert Relaid(t, t.chans[i], e.len, s'.chans[i]);
      RelaidCentre(t, t.chans[i], e.len, s'.chans[i]) by { BoundOf(s, s.chans[i]); }
    } else {
      assert Relaid(s, s.chans[i], e.len, s'.chans[i]);
      RelaidCentre(s, s.chans[i], e.len, s'.chans[i]) by { BoundOf(s, s.chans[i]); }
    }
  }

  lemma BoundOf(s: Snapshot, c: Chan)
    requires IsChan(s, c)
    ensures s.len + 2 * c.magic <= s.longest
  {
  }

  lemma RelaidCentre(s: Snapshot, c: Chan, len: nat, c': Chan)
    requires Relaid(s, c, len, c') && s.started && s.len % 4 == 0 && len % 4 == 0 && s.len + 2 * c.magic <= s.longest
    ensures len / 2 + c'.magic - c'.last == s.len / 2 + c.magic - c.last
  {
    LengthChange(s.len, c.magic, len, c.last, s.longest);
    hide Latest, NewMagic, NewLast;
  }

  // Every output moves it on by num/den.
  lemma PlaceStep(tap: (nat, nat, nat) -> real, s: Snapshot, e: Event, r: Result, s': Snapshot, i: nat, heard: nat)
    requires IsSnapshot(s) && Step(tap, s, e, r, s') && i < |s.chans| && !e.Rate? && (e.Feed? || s.started)
    ensures |s'.chans| == |s.chans| && s'.num == s.num && s'.den == s.den && (s.started ==> s'.started)
    ensures Place(s', i, heard + |UsedIn(e, r, i)|) == Place(s, i, heard) + |MadeIn(e, r, i)| * s.num
  {
    hide Latest, Outputs;
    if e.Length? {
      CentreStays(tap, s, e, r, s', i, heard);
      LengthKeepsPhase(s, e.len, s', i);
    } else if e.i == i {
      var c, c', f := s.chans[i], s'.chans[i], FilterIn(tap, s, i);
      CentreStep(f, c.buffered, c.magic, e.input, e.outLen, r.inUsed, r.out, c'.magic, c'.last, c'.frac,
          heard - s.len / 2);
    }
  }

  lemma LengthKeepsPhase(s: Snapshot, len: nat, s': Snapshot, i: nat)
    requires Relength(s, len, s') && i < |s.chans|
    ensures s'.chans[i].frac == s.chans[i].frac && s'.num == s.num && s'.den == s.den && s'.started == s.started
  {
    assert Relaid(s, s.chans[i], len, s'.chans[i]);
  }

  // At a fixed rate all outputs of a run together move the centre by num/den each, whatever happens to
  // the length of the filter in between.
  lemma {:induction false} PlaceOfTrace(tap: (nat, nat, nat) -> real, events: seq<Event>, results: seq<Result>,
                                        trace: seq<Snapshot>, i: nat, n: nat, heard: nat)
    requires IsTrace(tap, events, results, trace) && n <= |events| && i < |trace[0].chans|
    requires forall k :: 0 <= k < n ==> !events[k].Rate? && (events[k].Feed? || trace[k].started)
    ensures |trace[n].chans| == |trace[0].chans| && trace[n].num == trace[0].num && trace[n].den == trace[0].den
    ensures Place(trace[n], i, heard + |Used(events, results, i, n)|)
            == Place(trace[0], i, heard) + |Made(events, results, i, n)| * trace[0].num
  {
    hide IsSnapshot, Step, Place, UsedIn, MadeIn;
    if n > 0 {
      PlaceOfTrace(tap, events, results, trace, i, n - 1, heard);
      assert IsSnapshot(trace[n - 1]) && Step(tap, trace[n - 1], events[n - 1], results[n - 1], trace[n]);
      PlaceStep(tap, trace[n - 1], events[n - 1], results[n - 1], trace[n], i,
          heard + |Used(events, results, i, n - 1)|);
      MulDiff(|Made(events, results, i, n)|, |Made(events, results, i, n - 1)|, trace[0].num);
    }
  }
}

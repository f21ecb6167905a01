/** Safety of the representation store over every run of calls, crashes and reopenings. */
module RepresentationRuns {
  import opened Wrappers
  import opened Octets
  import opened Representation
  import opened RepresentationSpec
  import opened RepresentationSafety

  /** One event; `cut` is the number of exposed images after which the machine crashes. */
  datatype Event =
    | Reopen(cut: Option<nat>)
    | Invoke(call: Call, cut: Option<nat>)

  /** A disk and, while no crash or fatal error has ended it, the store object open on it. */
  datatype World = World(img: Image, live: Option<State>)

  const START := World(EMPTY_DISK, None)

  function CutAt(img: Image, trace: seq<Image>, cut: nat): Image {
    if cut == 0 || trace == [] then img else trace[Min(cut, |trace|) - 1]
  }

  function Settle<T>(w: World, e: Effect<T>, cut: Option<nat>, survives: bool): World {
    match cut
    case Some(k) => World(CutAt(w.img, e.trace, k), None)
    case None => World(After(w.img, e.trace), if survives then Some(e.state) else None)
  }

  function Step(sha: Hash, d: Descriptor, w: World, event: Event): World {
    match event
    case Reopen(cut) =>
      var e := Open(sha, w.img, d);
      Settle(w, e, cut, e.result.Ok?)
    case Invoke(call, cut) =>
      if w.live.None? then
        w
      else
        var e := Perform(sha, w.live.value, w.img, call);
        Settle(w, e, cut, e.result != Err(SequenceExhausted))
  }

  function Run(sha: Hash, d: Descriptor, w: World, events: seq<Event>): World
    decreases |events|
  {
    if events == [] then w else Run(sha, d, Step(sha, d, w, events[0]), events[1..])
  }

  ghost predicate Safe(sha: Hash, d: Descriptor, w: World) {
    && Recoverable(sha, d, w.img)
    && (w.live.Some? ==> w.live.value.descriptor == d && Live(sha, w.live.value, w.img))
  }

  /** Nothing durable is lost: octets leave the prefix only together and into quarantine, all else only grows. */
  ghost predicate Keeps(d: Descriptor, earlier: Image, later: Image)
    requires Newest(earlier, d).Ok? && Newest(later, d).Ok?
  {
    var v, w := ViewAt(d, earlier), ViewAt(d, later);
    && (v.accepted ==> w.accepted)
    && v.receipts <= w.receipts
    && (v.committed ==> w.committed && w.content == v.content)
    && earlier.quarantined <= later.quarantined
    && (if |later.quarantined| == |earlier.quarantined| then v.content <= w.content
        else v.content <= later.quarantined[|earlier.quarantined|])
  }

  function Sequence(d: Descriptor, img: Image): nat
    requires Newest(img, d).Ok?
  {
    Newest(img, d).value.sequence
  }

  lemma SoundCutKeeps(sha: Hash, call: Call, st: State, img: Image, cut: Image)
    requires Live(sha, st, img) && SoundCut(sha, call, st, img, cut)
    ensures Newest(img, st.descriptor) == Ok(st)
    ensures Keeps(st.descriptor, img, cut)
  {
    BackedIsNewest(st, img);
  }

  lemma SettleSafe(sha: Hash, w: World, call: Call, e: Effect<()>, cut: Option<nat>)
    requires w.live.Some? && Live(sha, w.live.value, w.img) && Sound(sha, call, w.live.value, w.img, e)
    requires e.result != Err(SequenceExhausted) ==> e.state.descriptor == w.live.value.descriptor
    ensures var d := w.live.value.descriptor;
            var w' := Settle(w, e, cut, e.result != Err(SequenceExhausted));
            && Newest(w.img, d).Ok?
            && Safe(sha, d, w') && Keeps(d, w.img, w'.img) && Sequence(d, w'.img) <= Sequence(d, w.img) + 1
  {
    var st := w.live.value;
    BackedIsNewest(st, w.img);
    var w' := Settle(w, e, cut, e.result != Err(SequenceExhausted));
    if w'.img != w.img {
      var k :| 0 <= k < |e.trace| && w'.img == e.trace[k];
      SoundCutKeeps(sha, call, st, w.img, w'.img);
    }
  }

  lemma DescriptorFixed(sha: Hash, st: State, img: Image, call: Call)
    ensures Perform(sha, st, img, call).state.descriptor == st.descriptor
  {
  }

  lemma InvokeSafe(sha: Hash, d: Descriptor, w: World, call: Call, cut: Option<nat>)
    requires Safe(sha, d, w) && w.live.Some?
    ensures var w' := Step(sha, d, w, Invoke(call, cut));
            Safe(sha, d, w') && Keeps(d, w.img, w'.img) && Sequence(d, w'.img) <= Sequence(d, w.img) + 1
  {
    CallSound(sha, w.live.value, w.img, call);
    DescriptorFixed(sha, w.live.value, w.img, call);
    SettleSafe(sha, w, call, Perform(sha, w.live.value, w.img, call), cut);
  }

  lemma ReopenSafe(sha: Hash, d: Descriptor, w: World, cut: Option<nat>)
    requires Safe(sha, d, w)
    ensures var w' := Step(sha, d, w, Reopen(cut));
            Safe(sha, d, w') && Keeps(d, w.img, w'.img) && Sequence(d, w'.img) <= Sequence(d, w.img) + 1
  {
    OpenSound(sha, d, w.img);
    var e := Open(sha, w.img, d);
    var w' := Step(sha, d, w, Reopen(cut));
    if w'.img != w.img {
      var k :| 0 <= k < |e.trace| && w'.img == e.trace[k];
    }
  }

  lemma {:induction false} RunSafe(sha: Hash, d: Descriptor, w: World, events: seq<Event>)
    requires Safe(sha, d, w)
    ensures var w' := Run(sha, d, w, events);
            Safe(sha, d, w') && Keeps(d, w.img, w'.img) && Sequence(d, w'.img) <= Sequence(d, w.img) + |events|
    decreases |events|
  {
    if events != [] {
      match events[0] {
        case Reopen(cut) => ReopenSafe(sha, d, w, cut);
        case Invoke(call, cut) => if w.live.Some? { InvokeSafe(sha, d, w, call, cut); }
      }
      RunSafe(sha, d, Step(sha, d, w, events[0]), events[1..]);
    }
  }

  lemma {:induction false} RunAppend(sha: Hash, d: Descriptor, w: World, first: seq<Event>, second: seq<Event>)
    ensures Run(sha, d, w, first + second) == Run(sha, d, Run(sha, d, w, first), second)
    decreases |first|
  {
    if first == [] {
      assert first + second == second;
    } else {
      assert (first + second)[1..] == first[1..] + second;
      RunAppend(sha, d, Step(sha, d, w, first[0]), first[1..], second);
    }
  }

  /**
   From an empty disk, after any run of calls, crashes at any durable action and reopenings:
   the disk opens (short of 2^64 saves), an open store's snapshot is exactly what the files hold,
   verified and committed content verifies, and a continuation of the run loses nothing.
   */
  lemma CrashSafety(sha: Hash, d: Descriptor, first: seq<Event>, second: seq<Event>)
    requires d.Valid()
    ensures var w := Run(sha, d, START, first);
            && Recoverable(sha, d, w.img)
            && (|first| < U64_MAX ==> Open(sha, w.img, d).result.Ok?)
            && (ViewAt(d, w.img).committed ==> Verify(sha, d, ViewAt(d, w.img).content))
            && (w.live.Some? ==>
                  var st := w.live.value;
                  var view := ViewAt(d, w.img);
                  && st.prefix == |view.content|
                  && (st.status == Committed <==> view.committed)
                  && (st.status == Verified ==> Verify(sha, d, view.content))
                  && (st.status != Absent <==> view.accepted)
                  && st.receipts == view.receipts)
            && Newest(Run(sha, d, START, first + second).img, d).Ok?
            && Keeps(d, w.img, Run(sha, d, START, first + second).img)
  {
    assert Backed(Fresh(d), EMPTY_DISK) && Safe(sha, d, START);
    RunSafe(sha, d, START, first);
    var w := Run(sha, d, START, first);
    OpenSound(sha, d, w.img);
    RunSafe(sha, d, w, second);
    RunAppend(sha, d, START, first, second);
    if w.live.Some? {
      BackedIsNewest(w.live.value, w.img);
    }
  }
}

/**
  Greedy fusion of contiguous scalar passes into blocks with one visible result.  The coalesced plan publishes what the
  source means, whatever the backend admits and whichever stages were fused whole.
 */
module ArrayFusion {
  import opened Base
  import opened ArrayProgram
  import opened ArrayPasses
  import opened ArrayMaterial
  import opened ArrayEmission
  import opened ArrayBlocks
  import opened ArrayDrafts
  import opened ArrayStages
  import opened StageOrder
  import opened ArrayPlan
  import opened ArrayRun
  import opened ArrayCompile

  const SEGMENT: nat := 15

  // ----- The state of coalescing -----

  /** Planes still needed from `index` on have been renamed, and renamed planes are the originals. */
  ghost predicate Coalesced(p: Program, original: seq<Pass>, kept: set<nat>, index: nat, combined: seq<Pass>, renamed: map<nat, nat>) {
    && index <= |original| && InOrder(combined)
    && RenamedHold(renamed, Made(p, original, |original|), Made(p, combined, |combined|))
    && (forall o :: 0 <= o < index && LastUse(original, kept, o) >= index ==> o in renamed)
  }

  lemma {:induction false} RenamedInRange(renamed: map<nat, nat>, made: Planes, combined: Planes)
    requires RenamedHold(renamed, made, combined)
    ensures forall n :: n in renamed.Values ==> n < |combined|
  {
  }

  /** Adding a pass that makes original plane `output`, the only plane of `[index, end)` needed later. */
  lemma {:induction false} CoalesceStep(p: Program, original: seq<Pass>, kept: set<nat>, index: nat, end: nat, output: nat,
                                        combined: seq<Pass>, renamed: map<nat, nat>, pass: Pass)
    requires Coalesced(p, original, kept, index, combined, renamed) && index <= output < end <= |original|
    requires forall n :: n in Refs(pass) ==> n < |combined|
    requires Made(p, combined + [pass], |combined| + 1) == Made(p, combined, |combined|) + [Made(p, original, |original|)[output]]
    requires forall o :: index <= o < end && LastUse(original, kept, o) >= end ==> o == output
    ensures Coalesced(p, original, kept, end, combined + [pass], renamed[output := |combined|])
  {
    var made, planes := Made(p, original, |original|), Made(p, combined, |combined|);
    var next := renamed[output := |combined|];
    assert RenamedHold(next, made, planes + [made[output]]) by { RenamedGrow(renamed, made, planes, output); }
    assert InOrder(combined + [pass]) by { InOrderAppend(combined, pass); }
    forall o | 0 <= o < end && LastUse(original, kept, o) >= end ensures o in next {
      assert o < index ==> o in renamed;
    }
  }

  lemma {:induction false} RenamedGrow(renamed: map<nat, nat>, made: Planes, combined: Planes, output: nat)
    requires RenamedHold(renamed, made, combined) && output < |made|
    ensures RenamedHold(renamed[output := |combined|], made, combined + [made[output]])
  {
  }

  lemma {:induction false} InOrderAppend(passes: seq<Pass>, pass: Pass)
    requires InOrder(passes) && forall n :: n in Refs(pass) ==> n < |passes|
    ensures InOrder(passes + [pass])
  {
  }

  // ----- Passes kept on their own -----

  function RenamedWork(w: Work, renamed: map<nat, nat>): Work {
    match w
    case GatherLoad(g, args) => GatherLoad(g, Renamed(renamed, args))
    case Apply(op, args, imm) => Apply(op, Renamed(renamed, args), imm)
    case Fused(n, producers) => Fused(n, map k | k in producers :: if producers[k] in renamed then renamed[producers[k]] else 0)
    case Block(_, _, _, _) => w
  }

  function RenamedPass(pass: Pass, renamed: map<nat, nat>): Pass {
    Pass(pass.rows, pass.columns, RenamedWork(pass.work, renamed))
  }

  lemma {:induction false} RenamedArgs(renamed: map<nat, nat>, made: Planes, combined: Planes, args: seq<nat>)
    requires RenamedHold(renamed, made, combined) && forall a :: a in args ==> a in renamed
    ensures PlanesAt(combined, Renamed(renamed, args)) == PlanesAt(made, args)
    ensures forall n :: n in Renamed(renamed, args) ==> n < |combined|
  {
    forall i | 0 <= i < |args| ensures args[i] in renamed && Renamed(renamed, args)[i] == renamed[args[i]] {
      assert args[i] in args;
    }
  }

  /** A renamed pass makes the plane of the original. */
  lemma {:induction false} RenamedRuns(p: Program, pass: Pass, renamed: map<nat, nat>, made: Planes, combined: Planes)
    requires RenamedHold(renamed, made, combined) && !pass.work.Block? && forall n :: n in Refs(pass) ==> n in renamed
    ensures RunPass(p, RenamedPass(pass, renamed), combined) == RunPass(p, pass, made)
    ensures forall n :: n in Refs(RenamedPass(pass, renamed)) ==> n < |combined|
  {
    match pass.work
    case GatherLoad(g, args) =>
      forall a | a in args ensures a in renamed { assert a in Refs(pass); }
      RenamedArgs(renamed, made, combined, args);
      assert |args| > 0 ==> PlanesAt(combined, Renamed(renamed, args))[0] == PlanesAt(made, args)[0];
      assert GatherPlane(p, g, Renamed(renamed, args), combined, pass.rows, pass.columns) == GatherPlane(p, g, args, made, pass.rows, pass.columns);
    case Apply(op, args, imm) =>
      forall a | a in args ensures a in renamed { assert a in Refs(pass); }
      RenamedArgs(renamed, made, combined, args);
    case Fused(n, producers) =>
      FusedRenamed(renamed, made, combined, producers, RenamedWork(pass.work, renamed).producers);
  }

  lemma {:induction false} FusedRenamed(renamed: map<nat, nat>, made: Planes, combined: Planes, producers: map<string, nat>, moved: map<string, nat>)
    requires RenamedHold(renamed, made, combined) && forall n :: n in producers.Values ==> n in renamed
    requires moved == map k | k in producers :: if producers[k] in renamed then renamed[producers[k]] else 0
    ensures Produced(moved, combined) == Produced(producers, made)
    ensures forall n :: n in moved.Values ==> n < |combined|
  {
    forall k | k in producers ensures producers[k] in renamed && moved[k] == renamed[producers[k]] {
      assert producers[k] in producers.Values;
    }
  }

  /** Every plane is the run of its pass over all planes. */
  lemma {:induction false} MadeEquation(p: Program, passes: seq<Pass>, q: nat)
    requires InOrder(passes) && q < |passes|
    ensures Made(p, passes, |passes|)[q] == RunPass(p, passes[q], Made(p, passes, |passes|))
  {
    var made := Made(p, passes, |passes|);
    MadeKeeps(p, passes, q, |passes|);
    MadeKeeps(p, passes, q + 1, |passes|);
    assert Made(p, passes, q + 1)[q] == RunPass(p, passes[q], Made(p, passes, q));
    forall n | n in Refs(passes[q]) ensures PlaneAt(Made(p, passes, q), n) == PlaneAt(made, n) {
    }
    BindAgrees(p, passes[q], Made(p, passes, q), made);
  }

  /** What a pass from `index` on reads from before `index` has been renamed. */
  lemma {:induction false} ReadsRenamed(p: Program, original: seq<Pass>, kept: set<nat>, index: nat, combined: seq<Pass>, renamed: map<nat, nat>, q: nat, n: nat)
    requires Coalesced(p, original, kept, index, combined, renamed) && InOrder(original) && index <= q < |original| && n in Refs(original[q])
    ensures n < q && (n < index ==> n in renamed)
  {
    LastReaderBounds(original, n, |original|, q);
  }

  // ----- Segments -----

  /** Contiguous scalar passes of one shape, none but the last a stage result. */
  predicate Segmented(original: seq<Pass>, kept: set<nat>, index: nat, limit: nat)
    requires index < |original|
  {
    && index < limit <= |original|
    && (forall q :: index <= q < limit ==>
      (original[q].work.Apply? || original[q].work.GatherLoad?)
      && original[q].rows == original[index].rows && original[q].columns == original[index].columns)
    && forall q :: index <= q < limit - 1 ==> q !in kept
  }

  lemma {:induction false} SegmentIsReady(p: Program, original: seq<Pass>, kept: set<nat>, index: nat, limit: nat, combined: seq<Pass>, renamed: map<nat, nat>)
    requires PassesFormed(original) && GathersFrom(original, kept) && index < |original| && Segmented(original, kept, index, limit)
    requires Coalesced(p, original, kept, index, combined, renamed)
    ensures SegmentReady(renamed, original[index..limit], index)
  {
    var segment := original[index..limit];
    forall q | 0 <= q < |segment| ensures PassReady(renamed, segment, index, q) {
      var at := index + q;
      assert segment[q] == original[at] && WorkFormed(original[at].work);
      forall a | a in Refs(segment[q]) ensures a < index + q && (a < index ==> a in renamed) {
        ReadsRenamed(p, original, kept, index, combined, renamed, at, a);
      }
      if segment[q].work.GatherLoad? {
        forall a | a in Refs(segment[q]) ensures a < index {
          assert GatherFrom(original[at], kept);
          assert a in kept;
        }
      }
    }
  }

  lemma {:induction false} SegmentIsMade(p: Program, original: seq<Pass>, kept: set<nat>, index: nat, limit: nat)
    requires PassesFormed(original) && index < |original| && Segmented(original, kept, index, limit)
    ensures SegmentMade(p, original[index..limit], index, Made(p, original, |original|), original[index].rows, original[index].columns)
  {
    var segment, made := original[index..limit], Made(p, original, |original|);
    forall q | 0 <= q < |segment| ensures PassMade(p, segment, index, made, original[index].rows, original[index].columns, q) {
      var at := index + q;
      assert segment[q] == original[at] && WorkFormed(original[at].work);
      MadeEquation(p, original, at);
    }
  }

  /** The passes of `[from, limit)` whose planes are needed from `limit` on. */
  function Visible(original: seq<Pass>, kept: set<nat>, from: nat, limit: nat): (v: seq<nat>)
    requires from <= limit
    ensures forall o :: o in v <==> from <= o < limit && LastUse(original, kept, o) >= limit
    decreases limit - from
  {
    if from == limit then []
    else (if LastUse(original, kept, from) >= limit then [from] else []) + Visible(original, kept, from + 1, limit)
  }

  /** A block that stands for `[index, end)` and exposes `output`. */
  ghost predicate BlockFits(p: Program, original: seq<Pass>, kept: set<nat>, index: nat, end: nat, output: nat, combined: seq<Pass>, pass: Pass) {
    && index <= output < end <= |original| && pass.work.Block? && pass.work.scalarPasses == end - index
    && (forall n :: n in Refs(pass) ==> n < |combined|)
    && RunPass(p, pass, Made(p, combined, |combined|)) == Made(p, original, |original|)[output]
    && forall o :: index <= o < end && LastUse(original, kept, o) >= end ==> o == output
  }

  lemma {:induction false} FirstVisible(original: seq<Pass>, kept: set<nat>, index: nat, limit: nat)
    requires index < limit
    ensures var visible := Visible(original, kept, index, limit); visible != [] ==> index <= visible[0] < limit
  {
    var visible := Visible(original, kept, index, limit);
    assert visible != [] ==> visible[0] in visible;
  }

  /** A block, the plane it exposes and where it ends. */
  datatype BlockChoice = BlockChoice(pass: Pass, output: nat, end: nat)

  /** The block of `[index, limit)` from its draft, if at most one result stays visible. */
  function BlockFrom(original: seq<Pass>, kept: set<nat>, index: nat, limit: nat, draft: Option<Draft>): Option<BlockChoice>
    requires index < limit <= |original|
  {
    var visible := Visible(original, kept, index, limit);
    var output := if visible != [] then visible[0] else limit - 1;
    if |visible| > 1 || draft.None? || output < index then None
    else Some(BlockChoice(BlockPass(draft.value, original[index].rows, original[index].columns, output - index), output, limit))
  }

  /** The block of `[index, limit)`, if it has at most one visible result and at most two inputs. */
  function BlockOf(original: seq<Pass>, kept: set<nat>, index: nat, limit: nat, renamed: map<nat, nat>): Option<BlockChoice>
    requires index < limit <= |original|
  {
    BlockFrom(original, kept, index, limit, DraftOf(renamed, original[index..limit], index, limit - index))
  }

  /** Every block of a segment stands for it. */
  lemma {:induction false} BlockIsFit(p: Program, original: seq<Pass>, kept: set<nat>, index: nat, limit: nat, combined: seq<Pass>, renamed: map<nat, nat>)
    requires PassesFormed(original) && GathersFrom(original, kept) && index < |original| && Segmented(original, kept, index, limit)
    requires Coalesced(p, original, kept, index, combined, renamed)
    ensures var b := BlockOf(original, kept, index, limit, renamed);
            b.Some? ==> b.value.end == limit && BlockFits(p, original, kept, index, limit, b.value.output, combined, b.value.pass)
  {
    var draft := DraftOf(renamed, original[index..limit], index, limit - index);
    assert forall output :: draft.Some? && index <= output < limit ==> DraftMakes(p, original, index, limit, output, combined, draft.value) by {
      SegmentIsReady(p, original, kept, index, limit, combined, renamed);
      forall output | draft.Some? && index <= output < limit ensures DraftMakes(p, original, index, limit, output, combined, draft.value) {
        DraftIsFit(p, original, kept, index, limit, output, combined, renamed, draft.value);
      }
    }
    BlockFromFits(p, original, kept, index, limit, combined, draft);
  }

  /** The block of a draft makes original plane `output` out of the planes made so far. */
  ghost predicate DraftMakes(p: Program, original: seq<Pass>, index: nat, limit: nat, output: nat, combined: seq<Pass>, d: Draft)
    requires index <= output < limit <= |original|
  {
    var pass := BlockPass(d, original[index].rows, original[index].columns, output - index);
    && |d.nodes| == limit - index && (forall n :: n in Refs(pass) ==> n < |combined|)
    && RunPass(p, pass, Made(p, combined, |combined|)) == Made(p, original, |original|)[output]
  }

  lemma {:induction false} BlockFromFits(p: Program, original: seq<Pass>, kept: set<nat>, index: nat, limit: nat, combined: seq<Pass>, draft: Option<Draft>)
    requires index < limit <= |original|
    requires forall output :: draft.Some? && index <= output < limit ==> DraftMakes(p, original, index, limit, output, combined, draft.value)
    ensures var b := BlockFrom(original, kept, index, limit, draft);
            b.Some? ==> b.value.end == limit && BlockFits(p, original, kept, index, limit, b.value.output, combined, b.value.pass)
  {
    var b := BlockFrom(original, kept, index, limit, draft);
    if b.Some? {
      var output := b.value.output;
      assert index <= output < limit by { FirstVisible(original, kept, index, limit); }
      assert forall o :: index <= o < limit && LastUse(original, kept, o) >= limit ==> o == output by {
        OnlyVisible(original, kept, index, limit, Visible(original, kept, index, limit));
      }
      MadeBlockFits(p, original, kept, index, limit, output, combined, draft.value);
    }
  }

  lemma {:induction false} MadeBlockFits(p: Program, original: seq<Pass>, kept: set<nat>, index: nat, limit: nat, output: nat, combined: seq<Pass>, d: Draft)
    requires index <= output < limit <= |original| && DraftMakes(p, original, index, limit, output, combined, d)
    requires forall o :: index <= o < limit && LastUse(original, kept, o) >= limit ==> o == output
    ensures BlockFits(p, original, kept, index, limit, output, combined, BlockPass(d, original[index].rows, original[index].columns, output - index))
  {
  }

  lemma {:induction false} DraftIsFit(p: Program, original: seq<Pass>, kept: set<nat>, index: nat, limit: nat, output: nat,
                                      combined: seq<Pass>, renamed: map<nat, nat>, d: Draft)
    requires PassesFormed(original) && index < |original| && Segmented(original, kept, index, limit) && index <= output < limit
    requires Coalesced(p, original, kept, index, combined, renamed) && SegmentReady(renamed, original[index..limit], index)
    requires DraftOf(renamed, original[index..limit], index, limit - index) == Some(d)
    ensures DraftMakes(p, original, index, limit, output, combined, d)
  {
    var segment := original[index..limit];
    assert DraftFor(d, renamed, segment, index) && |d.nodes| == limit - index by { DraftIsFor(renamed, segment, index, limit - index); }
    assert InputsRenamed(d, renamed) by { DraftRenamed(renamed, segment, index); }
    DraftFits(p, original, kept, index, limit, output, combined, renamed, d);
  }

  /** A block is refused exactly when two results would be visible or three inputs needed. */
  lemma {:induction false} BlockRefusal(p: Program, original: seq<Pass>, kept: set<nat>, index: nat, limit: nat, combined: seq<Pass>, renamed: map<nat, nat>)
    requires PassesFormed(original) && GathersFrom(original, kept) && index < |original| && Segmented(original, kept, index, limit)
    requires Coalesced(p, original, kept, index, combined, renamed)
    ensures BlockOf(original, kept, index, limit, renamed).None? <==>
            |Visible(original, kept, index, limit)| > 1 || |SegmentInputs(renamed, original[index..limit], index, limit - index)| > BLOCK_INPUTS
  {
    var segment, visible := original[index..limit], Visible(original, kept, index, limit);
    FirstVisible(original, kept, index, limit);
    SegmentIsReady(p, original, kept, index, limit, combined, renamed);
    DraftExact(renamed, segment, index, limit - index);
  }

  /** The block of a segment's draft makes the plane of any pass of the segment. */
  lemma {:induction false} DraftFits(p: Program, original: seq<Pass>, kept: set<nat>, index: nat, limit: nat, output: nat,
                                     combined: seq<Pass>, renamed: map<nat, nat>, d: Draft)
    requires PassesFormed(original) && index < |original| && Segmented(original, kept, index, limit) && index <= output < limit
    requires Coalesced(p, original, kept, index, combined, renamed) && InputsRenamed(d, renamed)
    requires DraftFor(d, renamed, original[index..limit], index) && |d.nodes| == limit - index
    ensures var pass := BlockPass(d, original[index].rows, original[index].columns, output - index);
            && (forall n :: n in Refs(pass) ==> n < |combined|)
            && RunPass(p, pass, Made(p, combined, |combined|)) == Made(p, original, |original|)[output]
  {
    var made, planes := Made(p, original, |original|), Made(p, combined, |combined|);
    SegmentIsMade(p, original, kept, index, limit);
    DraftRuns(p, d, renamed, original[index..limit], index, made, planes, original[index].rows, original[index].columns, output - index);
  }

  lemma {:induction false} DraftRuns(p: Program, d: Draft, renamed: map<nat, nat>, segment: seq<Pass>, index: nat, made: Planes, planes: Planes,
                                     rows: nat, columns: nat, output: nat)
    requires RenamedHold(renamed, made, planes) && DraftFor(d, renamed, segment, index) && output < |d.nodes| && InputsRenamed(d, renamed)
    requires SegmentMade(p, segment, index, made, rows, columns)
    ensures var pass := BlockPass(d, rows, columns, output);
            && index + output < |made| && (forall n :: n in Refs(pass) ==> n < |planes|) && RunPass(p, pass, planes) == made[index + output]
  {
    assert forall n :: n in BlockRefs(d.inputs) ==> n < |planes| by { RenamedInRange(renamed, made, planes); }
    BlockMeaning(p, d, renamed, segment, index, made, planes, rows, columns, output);
  }

  lemma {:induction false} OnlyVisible(original: seq<Pass>, kept: set<nat>, index: nat, limit: nat, visible: seq<nat>)
    requires index <= limit && visible == Visible(original, kept, index, limit) && |visible| <= 1
    ensures forall o :: index <= o < limit && LastUse(original, kept, o) >= limit ==> |visible| == 1 && o == visible[0]
  {
    forall o | index <= o < limit && LastUse(original, kept, o) >= limit ensures |visible| == 1 && o == visible[0] {
      assert o in visible;
    }
  }

  // ----- Coalescing -----

  /** The program with its literal words zeroed: admission never depends on them. */
  function Structural(p: Program): Program {
    p.(stages := map n | n in p.stages :: p.stages[n].(inputs := ZeroInputs(p.stages[n].inputs)))
  }

  function ZeroInputs(inputs: seq<Input>): seq<Input> {
    seq(|inputs|, i requires 0 <= i < |inputs| =>
      if inputs[i].Literal? then Literal(inputs[i].plane.(words := seq(|inputs[i].plane.words|, _ => 0))) else inputs[i])
  }

  /** Whether the search from `index` reaches `limit`. */
  predicate InReach(original: seq<Pass>, kept: set<nat>, index: nat, limit: nat)
    requires index < |original|
  {
    index + 2 <= limit <= |original| && limit <= index + SEGMENT && Segmented(original, kept, index, limit)
  }

  lemma {:induction false} ReachShrinks(original: seq<Pass>, kept: set<nat>, index: nat, limit: nat, further: nat)
    requires index < |original| && index + 2 <= limit <= further && InReach(original, kept, index, further)
    ensures InReach(original, kept, index, limit)
  {
  }

  /** `[index, limit)` is in reach and makes a block the backend admits. */
  predicate Candidate(q: Program, original: seq<Pass>, kept: set<nat>, index: nat, combined: seq<Pass>, renamed: map<nat, nat>, admit: Grid -> bool, limit: nat)
    requires index < |original|
  {
    && InReach(original, kept, index, limit)
    && var b := BlockOf(original, kept, index, limit, renamed);
       b.Some? && admit(Bind(q, b.value.pass, Placeholders(combined, |combined|)))
  }

  /** Where the last candidate up to `limit` ends, or zero. */
  function LastEnd(q: Program, original: seq<Pass>, kept: set<nat>, index: nat, combined: seq<Pass>, renamed: map<nat, nat>, admit: Grid -> bool, limit: nat): nat
    requires index < |original|
  {
    if limit == 0 then 0 else if Candidate(q, original, kept, index, combined, renamed, admit, limit) then limit else LastEnd(q, original, kept, index, combined, renamed, admit, limit - 1)
  }

  lemma {:induction false} LastEndIs(q: Program, original: seq<Pass>, kept: set<nat>, index: nat, combined: seq<Pass>, renamed: map<nat, nat>, admit: Grid -> bool, limit: nat)
    requires index < |original|
    ensures var end := LastEnd(q, original, kept, index, combined, renamed, admit, limit); end <= limit && (end > 0 ==> Candidate(q, original, kept, index, combined, renamed, admit, end))
  {
    if limit > 0 && !Candidate(q, original, kept, index, combined, renamed, admit, limit) {
      LastEndIs(q, original, kept, index, combined, renamed, admit, limit - 1);
    }
  }

  lemma {:induction false} NoneAfterLast(q: Program, original: seq<Pass>, kept: set<nat>, index: nat, combined: seq<Pass>, renamed: map<nat, nat>, admit: Grid -> bool, limit: nat, l: nat)
    requires index < |original| && LastEnd(q, original, kept, index, combined, renamed, admit, limit) < l <= limit
    ensures !Candidate(q, original, kept, index, combined, renamed, admit, l)
  {
    if l < limit {
      NoneAfterLast(q, original, kept, index, combined, renamed, admit, limit - 1, l);
    }
  }

  lemma {:induction false} LastEndSame(q: Program, original: seq<Pass>, kept: set<nat>, index: nat, combined: seq<Pass>, renamed: map<nat, nat>, admit: Grid -> bool, limit: nat, further: nat)
    requires index < |original| && limit <= further && forall l :: limit < l <= further ==> !Candidate(q, original, kept, index, combined, renamed, admit, l)
    ensures LastEnd(q, original, kept, index, combined, renamed, admit, further) == LastEnd(q, original, kept, index, combined, renamed, admit, limit)
  {
    if limit < further {
      LastEndSame(q, original, kept, index, combined, renamed, admit, limit, further - 1);
    }
  }

  /** Where the longest candidate from `index` ends, or zero. */
  function LongestEnd(q: Program, original: seq<Pass>, kept: set<nat>, index: nat, combined: seq<Pass>, renamed: map<nat, nat>, admit: Grid -> bool): nat
    requires index < |original|
  {
    LastEnd(q, original, kept, index, combined, renamed, admit, index + SEGMENT)
  }

  lemma {:induction false} LongestIs(q: Program, original: seq<Pass>, kept: set<nat>, index: nat, combined: seq<Pass>, renamed: map<nat, nat>, admit: Grid -> bool)
    requires index < |original|
    ensures var end := LongestEnd(q, original, kept, index, combined, renamed, admit);
            && (end > 0 ==> Ending(original, kept, index, renamed, end).Some? && Candidate(q, original, kept, index, combined, renamed, admit, end))
            && forall l :: end < l <= index + SEGMENT ==> !Candidate(q, original, kept, index, combined, renamed, admit, l)
  {
    LastEndIs(q, original, kept, index, combined, renamed, admit, index + SEGMENT);
    forall l | LongestEnd(q, original, kept, index, combined, renamed, admit) < l <= index + SEGMENT ensures !Candidate(q, original, kept, index, combined, renamed, admit, l) {
      NoneAfterLast(q, original, kept, index, combined, renamed, admit, index + SEGMENT, l);
    }
  }

  /** The block that ends at `end`, or nothing. */
  function Ending(original: seq<Pass>, kept: set<nat>, index: nat, renamed: map<nat, nat>, end: nat): Option<BlockChoice> {
    if index < end <= |original| then BlockOf(original, kept, index, end, renamed) else None
  }

  lemma {:induction false} SearchStep(q: Program, original: seq<Pass>, kept: set<nat>, index: nat, combined: seq<Pass>, renamed: map<nat, nat>, admit: Grid -> bool, limit: nat)
    requires index < |original| && InReach(original, kept, index, limit)
    ensures var b := BlockOf(original, kept, index, limit, renamed);
            LastEnd(q, original, kept, index, combined, renamed, admit, limit) ==
            if b.Some? && admit(Bind(q, b.value.pass, Placeholders(combined, |combined|))) then limit else LastEnd(q, original, kept, index, combined, renamed, admit, limit - 1)
  {
  }

  lemma {:induction false} SearchDone(q: Program, original: seq<Pass>, kept: set<nat>, index: nat, combined: seq<Pass>, renamed: map<nat, nat>, admit: Grid -> bool, limit: nat)
    requires index < |original| && index + 2 <= limit <= index + SEGMENT + 1 && !InReach(original, kept, index, limit)
    ensures LastEnd(q, original, kept, index, combined, renamed, admit, limit - 1) == LongestEnd(q, original, kept, index, combined, renamed, admit)
  {
    forall l | limit - 1 < l <= index + SEGMENT ensures !Candidate(q, original, kept, index, combined, renamed, admit, l) {
      if InReach(original, kept, index, l) {
        ReachShrinks(original, kept, index, limit, l);
      }
    }
    LastEndSame(q, original, kept, index, combined, renamed, admit, limit - 1, index + SEGMENT);
  }

  lemma {:induction false} SearchStart(q: Program, original: seq<Pass>, kept: set<nat>, index: nat, combined: seq<Pass>, renamed: map<nat, nat>, admit: Grid -> bool)
    requires index < |original|
    ensures LastEnd(q, original, kept, index, combined, renamed, admit, index + 1) == 0
  {
    LastEndSame(q, original, kept, index, combined, renamed, admit, 0, index + 1);
    assert LastEnd(q, original, kept, index, combined, renamed, admit, 0) == 0;
  }

  /** The last admitted block up to `limit`. */
  ghost predicate Searched(q: Program, original: seq<Pass>, kept: set<nat>, index: nat, combined: seq<Pass>, renamed: map<nat, nat>, admit: Grid -> bool,
                           limit: nat, chosen: Option<BlockChoice>)
    requires index < |original|
  {
    chosen == Ending(original, kept, index, renamed, LastEnd(q, original, kept, index, combined, renamed, admit, limit))
  }

  /** One turn of the search: the block that ends at `limit` replaces the choice if the backend admits it. */
  method TryLimit(q: Program, original: seq<Pass>, kept: set<nat>, index: nat, combined: seq<Pass>, renamed: map<nat, nat>, admit: Grid -> bool, limit: nat,
                  before: Option<BlockChoice>) returns (chosen: Option<BlockChoice>)
    requires index < |original| && InReach(original, kept, index, limit) && Searched(q, original, kept, index, combined, renamed, admit, limit - 1, before)
    ensures Searched(q, original, kept, index, combined, renamed, admit, limit, chosen)
  {
    SearchStep(q, original, kept, index, combined, renamed, admit, limit);
    var block := MakeBlock(original, kept, index, limit, renamed);
    var found := block.Some? && admit(Bind(q, block.value.pass, Placeholders(combined, |combined|)));
    chosen := if found then block else before;
  }

  /** The longest admitted block from `index`, if any: no longer segment in reach makes an admitted block. */
  method ChooseBlock(q: Program, original: seq<Pass>, kept: set<nat>, index: nat, combined: seq<Pass>, renamed: map<nat, nat>, admit: Grid -> bool) returns (chosen: Option<BlockChoice>)
    requires index < |original|
    ensures chosen == Ending(original, kept, index, renamed, LongestEnd(q, original, kept, index, combined, renamed, admit))
    ensures chosen.Some? ==> Candidate(q, original, kept, index, combined, renamed, admit, chosen.value.end)
    ensures forall l :: (if chosen.Some? then chosen.value.end else 0) < l <= index + SEGMENT ==> !Candidate(q, original, kept, index, combined, renamed, admit, l)
  {
    chosen := SearchLimits(q, original, kept, index, combined, renamed, admit);
    LongestIs(q, original, kept, index, combined, renamed, admit);
  }

  /** The search: limits grow from `index + 2` while in reach, and the last admitted block stays. */
  method SearchLimits(q: Program, original: seq<Pass>, kept: set<nat>, index: nat, combined: seq<Pass>, renamed: map<nat, nat>, admit: Grid -> bool) returns (chosen: Option<BlockChoice>)
    requires index < |original|
    ensures chosen == Ending(original, kept, index, renamed, LongestEnd(q, original, kept, index, combined, renamed, admit))
  {
    chosen := None;
    var limit := index + 2;
    ghost var done := index + 1;
    assert Searched(q, original, kept, index, combined, renamed, admit, done, chosen) by { SearchStart(q, original, kept, index, combined, renamed, admit); }
    while InReach(original, kept, index, limit)
      invariant limit == done + 1 && index + 2 <= limit <= index + SEGMENT + 1
      invariant Searched(q, original, kept, index, combined, renamed, admit, done, chosen)
      decreases |original| - limit
    {
      chosen := TryLimit(q, original, kept, index, combined, renamed, admit, limit, chosen);
      done, limit := limit, limit + 1;
    }
    assert LastEnd(q, original, kept, index, combined, renamed, admit, done) == LongestEnd(q, original, kept, index, combined, renamed, admit) by { SearchDone(q, original, kept, index, combined, renamed, admit, limit); }
  }

  method MakeBlock(original: seq<Pass>, kept: set<nat>, index: nat, limit: nat, renamed: map<nat, nat>) returns (r: Option<BlockChoice>)
    requires index < limit <= |original|
    ensures r == BlockOf(original, kept, index, limit, renamed)
  {
    var visible := Visible(original, kept, index, limit);
    if |visible| > 1 {
      return None;
    }
    var draft := DraftSegment(renamed, original[index..limit], index);
    r := BlockFrom(original, kept, index, limit, draft);
  }

  /** The original passes a coalesced pass stands for. */
  function Span(pass: Pass): nat {
    if pass.work.Block? then pass.work.scalarPasses else 1
  }

  /** The coalesced passes stand for consecutive, non-empty runs of original passes that cover them all. */
  ghost predicate Partitions(combined: seq<Pass>, cuts: seq<nat>, total: nat) {
    && |cuts| == |combined| + 1 && cuts[0] == 0 && cuts[|combined|] == total
    && forall j, k {:trigger cuts[j], cuts[k]} :: 0 <= j < |combined| && k == j + 1 ==> cuts[j] < cuts[k] == cuts[j] + Span(combined[j])
  }

  lemma {:induction false} PartitionStep(combined: seq<Pass>, cuts: seq<nat>, index: nat, pass: Pass, end: nat)
    requires Partitions(combined, cuts, index) && index < end == index + Span(pass)
    ensures Partitions(combined + [pass], cuts + [end], end)
  {
  }

  lemma {:induction false} BlockTaken(p: Program, original: seq<Pass>, kept: set<nat>, index: nat, end: nat, output: nat,
                                      combined: seq<Pass>, renamed: map<nat, nat>, pass: Pass)
    requires Coalesced(p, original, kept, index, combined, renamed) && BlockFits(p, original, kept, index, end, output, combined, pass)
    ensures Coalesced(p, original, kept, end, combined + [pass], renamed[output := |combined|])
  {
    MadeAppend(p, combined, pass);
    CoalesceStep(p, original, kept, index, end, output, combined, renamed, pass);
  }

  lemma {:induction false} PassTaken(p: Program, original: seq<Pass>, kept: set<nat>, index: nat, combined: seq<Pass>, renamed: map<nat, nat>)
    requires Coalesced(p, original, kept, index, combined, renamed) && PassesFormed(original) && index < |original|
    ensures Coalesced(p, original, kept, index + 1, combined + [RenamedPass(original[index], renamed)], renamed[index := |combined|])
  {
    var pass, made, planes := RenamedPass(original[index], renamed), Made(p, original, |original|), Made(p, combined, |combined|);
    assert WorkFormed(original[index].work);
    forall n | n in Refs(original[index]) ensures n in renamed {
      ReadsRenamed(p, original, kept, index, combined, renamed, index, n);
    }
    assert RunPass(p, pass, planes) == made[index] && (forall n :: n in Refs(pass) ==> n < |combined|) by {
      RenamedRuns(p, original[index], renamed, made, planes);
      MadeEquation(p, original, index);
    }
    assert Made(p, combined + [pass], |combined| + 1) == planes + [made[index]] by { MadeAppend(p, combined, pass); }
    CoalesceStep(p, original, kept, index, index + 1, index, combined, renamed, pass);
  }

  // ----- The greedy run -----

  /** How far coalescing has come: the next original pass, the passes made and where original planes have gone. */
  datatype Run = Run(index: nat, combined: seq<Pass>, renamed: map<nat, nat>)

  /** One turn: the longest admitted block, or the next original pass over renamed planes. */
  function Turn(q: Program, original: seq<Pass>, kept: set<nat>, admit: Grid -> bool, run: Run): (next: Run)
    requires run.index < |original|
    ensures run.index < next.index <= |original| && |next.combined| == |run.combined| + 1
  {
    var b := Ending(original, kept, run.index, run.renamed, LongestEnd(q, original, kept, run.index, run.combined, run.renamed, admit));
    if b.Some? then Run(b.value.end, run.combined + [b.value.pass], run.renamed[b.value.output := |run.combined|])
    else Run(run.index + 1, run.combined + [RenamedPass(original[run.index], run.renamed)], run.renamed[run.index := |run.combined|])
  }

  function RunToEnd(q: Program, original: seq<Pass>, kept: set<nat>, admit: Grid -> bool, run: Run): (end: Run)
    requires run.index <= |original|
    ensures |end.combined| >= |run.combined| + if run.index < |original| then 1 else 0
    decreases |original| - run.index
  {
    if run.index == |original| then run else RunToEnd(q, original, kept, admit, Turn(q, original, kept, admit, run))
  }

  function FullRun(q: Program, original: seq<Pass>, kept: set<nat>, admit: Grid -> bool): Run {
    RunToEnd(q, original, kept, admit, Run(0, [], map[]))
  }

  function MovedResults(results: map<string, nat>, renamed: map<nat, nat>): map<string, nat> {
    map n | n in results :: MovedTo(renamed, results[n])
  }

  /** Greedy coalescing: it refuses exactly when more than 128 passes remain, the new results make the planes of the old
      ones, and the coalesced passes partition the original ones. */
  method Coalesce(p: Program, q: Program, order: seq<string>, original: seq<Pass>, results: map<string, nat>, admit: Grid -> bool)
    returns (r: Option<Material>, ghost cuts: seq<nat>)
    requires PassesFormed(original) && GathersFrom(original, results.Values) && ResultsRight(p, order, results, original)
    ensures r.Some? <==> |FullRun(q, original, results.Values, admit).combined| <= MAX_PASSES
    ensures r.Some? ==> var run := FullRun(q, original, results.Values, admit); r.value == Material(run.combined, MovedResults(results, run.renamed))
    ensures r.Some? ==> ResultsRight(p, order, r.value.results, r.value.passes) && Partitions(r.value.passes, cuts, |original|)
  {
    var kept, run := results.Values, Run(0, [], map[]);
    cuts := [0];
    while run.index < |original|
      invariant 0 <= run.index <= |original| && |run.combined| <= MAX_PASSES
      invariant RunToEnd(q, original, kept, admit, run) == FullRun(q, original, kept, admit)
      invariant Coalesced(p, original, kept, run.index, run.combined, run.renamed) && Partitions(run.combined, cuts, run.index)
      decreases |original| - run.index
    {
      if |run.combined| >= MAX_PASSES {
        return None, cuts;
      }
      var next := TakeTurn(p, q, original, kept, admit, run);
      assert Partitions(next.combined, cuts + [next.index], next.index) by { TurnPartitions(q, original, kept, admit, run, cuts); }
      run, cuts := next, cuts + [next.index];
    }
    AllResultsRenamed(p, order, original, results, run.combined, run.renamed);
    r := Some(Material(run.combined, MovedResults(results, run.renamed)));
  }

  lemma {:induction false} TurnPartitions(q: Program, original: seq<Pass>, kept: set<nat>, admit: Grid -> bool, run: Run, cuts: seq<nat>)
    requires PassesFormed(original) && run.index < |original| && Partitions(run.combined, cuts, run.index)
    ensures var next := Turn(q, original, kept, admit, run); Partitions(next.combined, cuts + [next.index], next.index)
  {
    var next := Turn(q, original, kept, admit, run);
    SpanOfOriginal(original, run.index, run.renamed);
    assert next.index == run.index + Span(next.combined[|run.combined|]) by { TurnSpan(q, original, kept, admit, run); }
    PartitionStep(run.combined, cuts, run.index, next.combined[|run.combined|], next.index);
  }

  lemma {:induction false} TurnSpan(q: Program, original: seq<Pass>, kept: set<nat>, admit: Grid -> bool, run: Run)
    requires PassesFormed(original) && run.index < |original|
    ensures var next := Turn(q, original, kept, admit, run);
            next.index == run.index + Span(next.combined[|run.combined|]) && next.combined == run.combined + [next.combined[|run.combined|]]
  {
    SpanOfOriginal(original, run.index, run.renamed);
    var b := Ending(original, kept, run.index, run.renamed, LongestEnd(q, original, kept, run.index, run.combined, run.renamed, admit));
    if b.Some? {
      DraftCount(run.renamed, original[run.index..b.value.end], run.index, b.value.end - run.index);
    }
  }

  lemma {:induction false} DraftCount(renamed: map<nat, nat>, segment: seq<Pass>, index: nat, k: nat)
    requires k <= |segment|
    ensures var d := DraftOf(renamed, segment, index, k); d.Some? ==> |d.value.nodes| == k
  {
    if k > 0 {
      DraftCount(renamed, segment, index, k - 1);
      var before := DraftOf(renamed, segment, index, k - 1);
      if before.Some? {
        NodesKept(before.value, renamed, index, segment[k - 1]);
      }
    }
  }

  lemma {:induction false} NodesKept(d: Draft, renamed: map<nat, nat>, index: nat, raw: Pass)
    ensures var r := NextNode(d, renamed, index, raw); r.Some? ==> r.value.draft.nodes == d.nodes
  {
    if raw.work.Apply? {
      ArgsKeepNodes(d, renamed, index, raw.work.args, |raw.work.args|);
    }
  }

  lemma {:induction false} ArgsKeepNodes(d: Draft, renamed: map<nat, nat>, index: nat, args: seq<nat>, k: nat)
    requires k <= |args|
    ensures var r := ReadArgs(d, renamed, index, args, k); r.Some? ==> r.value.draft.nodes == d.nodes
  {
    if k > 0 {
      ArgsKeepNodes(d, renamed, index, args, k - 1);
    }
  }

  /** A turn keeps what coalescing keeps. */
  lemma {:induction false} TurnCoalesces(p: Program, q: Program, original: seq<Pass>, kept: set<nat>, admit: Grid -> bool, run: Run)
    requires PassesFormed(original) && GathersFrom(original, kept) && run.index < |original|
    requires Coalesced(p, original, kept, run.index, run.combined, run.renamed)
    ensures var next := Turn(q, original, kept, admit, run); Coalesced(p, original, kept, next.index, next.combined, next.renamed)
  {
    var end := LongestEnd(q, original, kept, run.index, run.combined, run.renamed, admit);
    var b := Ending(original, kept, run.index, run.renamed, end);
    assert b.Some? ==> Segmented(original, kept, run.index, end) by { LongestIs(q, original, kept, run.index, run.combined, run.renamed, admit); }
    if b.Some? {
      BlockIsFit(p, original, kept, run.index, b.value.end, run.combined, run.renamed);
      BlockTaken(p, original, kept, run.index, b.value.end, b.value.output, run.combined, run.renamed, b.value.pass);
    } else {
      PassTaken(p, original, kept, run.index, run.combined, run.renamed);
    }
  }

  method TakeTurn(p: Program, q: Program, original: seq<Pass>, kept: set<nat>, admit: Grid -> bool, run: Run) returns (next: Run)
    requires PassesFormed(original) && GathersFrom(original, kept) && run.index < |original|
    requires Coalesced(p, original, kept, run.index, run.combined, run.renamed)
    ensures next == Turn(q, original, kept, admit, run) && Coalesced(p, original, kept, next.index, next.combined, next.renamed)
  {
    var chosen := ChooseBlock(q, original, kept, run.index, run.combined, run.renamed, admit);
    TurnCoalesces(p, q, original, kept, admit, run);
    if chosen.Some? {
      next := Run(chosen.value.end, run.combined + [chosen.value.pass], run.renamed[chosen.value.output := |run.combined|]);
    } else {
      next := Run(run.index + 1, run.combined + [RenamedPass(original[run.index], run.renamed)], run.renamed[run.index := |run.combined|]);
    }
  }

  lemma {:induction false} SpanOfOriginal(original: seq<Pass>, index: nat, renamed: map<nat, nat>)
    requires PassesFormed(original) && index < |original|
    ensures Span(RenamedPass(original[index], renamed)) == 1
  {
    assert WorkFormed(original[index].work);
  }

  /** No stage result is hidden in a block. */
  lemma {:induction false} AllResultsRenamed(p: Program, order: seq<string>, original: seq<Pass>, results: map<string, nat>, combined: seq<Pass>, renamed: map<nat, nat>)
    requires ResultsRight(p, order, results, original) && Coalesced(p, original, results.Values, |original|, combined, renamed)
    ensures forall n :: n in results ==> results[n] in renamed
    ensures ResultsRight(p, order, MovedResults(results, renamed), combined)
  {
    var stages, made, planes := StagePlanes(p, order, |order|), Made(p, original, |original|), Made(p, combined, |combined|);
    forall n | n in results ensures results[n] in renamed {
      assert ResultHolds(stages, results, made, n);
      assert results[n] in results.Values;
    }
    var moved := MovedResults(results, renamed);
    forall n | n in moved ensures ResultHolds(stages, moved, planes, n) {
      assert ResultHolds(stages, results, made, n);
    }
  }

  // ----- compile, second schema -----

  const MAX_SCALAR_EVALUATIONS := 1048576

  function Evaluations(p: Program, names: seq<string>): int {
    if names == [] then 0
    else
      (if names[0] in p.stages then
        Times(Times(p.stages[names[0]].columns, p.stages[names[0]].rows), ScalarPasses(p.stages[names[0]])) else 0)
      + Evaluations(p, names[1..])
  }

  /** The coalesced passes and results of a program. */
  function FusedMaterial(p: Program, order: seq<string>, fuse: string -> bool, admit: Grid -> bool): Material {
    var m := ProgramMaterial(p, order, fuse, |order|);
    var run := FullRun(Structural(p), m.passes, m.results.Values, admit);
    Material(run.combined, MovedResults(m.results, run.renamed))
  }

  ghost predicate FusedAccepts(p: Program, fuse: string -> bool, admit: Grid -> bool, backend: Backend, order: seq<string>) {
    && Structured(p, order) && Evaluations(p, order) <= MAX_SCALAR_EVALUATIONS
    && var m := FusedMaterial(p, order, fuse, admit);
       PlanAffordable(p, Structural(p), m.passes, m.results, backend, LiteralWords(p, order))
  }

  function FusedPlan(p: Program, fuse: string -> bool, admit: Grid -> bool, backend: Backend, order: seq<string>): Plan {
    var m := FusedMaterial(p, order, fuse, admit);
    PlanFrom(p, Structural(p), order, m.passes, m.results, backend, LiteralWords(p, order))
  }

  /**
    The fusing compiler, for any choice of whole stages, any block admission and any backend: it accepts exactly the
    structured programs whose coalesced passes are affordable, and its plan publishes their meaning when executed.
   */
  method CompileFused(p: Program, fuse: string -> bool, admit: Grid -> bool, backend: Backend) returns (r: Option<Plan>)
    ensures r.Some? ==> FusedAccepts(p, fuse, admit, backend, r.value.order) && PlanRight(p, r.value)
    ensures r.Some? ==> r.value == FusedPlan(p, fuse, admit, backend, r.value.order)
    ensures r.None? ==> forall order :: !FusedAccepts(p, fuse, admit, backend, order)
  {
    var ordered := Structure(p);
    if ordered.None? {
      return None;
    }
    var order := ordered.value;
    forall other | Structured(p, other) ensures other == order { OrderUnique(p, Some(order), Some(other)); }
    if Evaluations(p, order) > MAX_SCALAR_EVALUATIONS {
      return None;
    }
    r := FuseOrdered(p, order, fuse, admit, backend);
  }

  method FuseOrdered(p: Program, order: seq<string>, fuse: string -> bool, admit: Grid -> bool, backend: Backend) returns (r: Option<Plan>)
    requires ProgramFormed(p) && StageOrdered(p, order)
    ensures r.Some? <==> var m := FusedMaterial(p, order, fuse, admit); PlanAffordable(p, Structural(p), m.passes, m.results, backend, LiteralWords(p, order))
    ensures r.Some? ==> PlanRight(p, r.value) && r.value == FusedPlan(p, fuse, admit, backend, order)
  {
    var passes, results := Materialise(p, order, fuse);
    assert ResultsRight(p, order, results, passes) by { AllResultsRight(p, order, fuse, passes, results); }
    var coalesced, cuts := Coalesce(p, Structural(p), order, passes, results, admit);
    if coalesced.None? {
      return None;
    }
    r := Finish(p, Structural(p), order, coalesced.value.passes, coalesced.value.results, backend, LiteralWords(p, order));
  }

  /** Scalar and fused plans of one program, each run exactly when its compiler accepts the program, publish the same planes. */
  method FusedMatchesScalar(p: Program, fuse: string -> bool, admit: Grid -> bool, backend: Backend)
    returns (scalar: Option<seq<Published>>, fused: Option<seq<Published>>)
    ensures scalar.Some? <==> exists order :: ScalarAccepts(p, admit, order)
    ensures fused.Some? <==> exists order :: FusedAccepts(p, fuse, admit, backend, order)
    ensures forall order :: Structured(p, order) ==> (scalar.Some? ==> scalar.value == Meaning(p, order)) && (fused.Some? ==> fused.value == Meaning(p, order))
    ensures scalar.Some? && fused.Some? ==> scalar == fused
  {
    var one := CompileScalar(p, admit);
    var other := CompileFused(p, fuse, admit, backend);
    scalar, fused := None, None;
    forall a, b | Structured(p, a) && Structured(p, b) ensures a == b {
      OrderUnique(p, Some(a), Some(b));
    }
    if one.Some? {
      var planes, _ := Execute(p, one.value);
      scalar := Some(planes);
    }
    if other.Some? {
      var planes, _ := Execute(p, other.value);
      fused := Some(planes);
    }
  }
}

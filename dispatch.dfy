/**
 * What a scene change does to the mixer, as a function of the mute flags
 * before it: the scene's action set is read as the sequence of handler calls
 * it makes (keys in declared order, indices in declared order within a key,
 * inert keys skipped), and those calls are applied one after the other.
 */
module SceneDispatch {
  import opened Actions

  /** One scene's entry: action keys in declared order, each with its declared channel indices. */
  type ActionSet = seq<(string, seq<int>)>

  /** Scene name to action set. */
  type SceneMapping = map<string, ActionSet>

  /** The handler calls for the first `j` indices of one action key, in declared order. */
  function KeySteps(kind: ActionKind, indices: seq<int>, j: nat): (steps: seq<Step>)
    requires j <= |indices|
  {
    seq(j, q requires 0 <= q < j => Step(kind, indices[q]))
  }

  /** The handler calls of one entry: none for a key the handler table lacks. */
  function EntrySteps(entry: (string, seq<int>)): (steps: seq<Step>)
  {
    var kind := ParseAction(entry.0);
    if kind.Unknown? then [] else KeySteps(kind, entry.1, |entry.1|)
  }

  /** The handler calls of the first `k` keys of an action set, in the order the observer makes them. */
  function StepsFirst(acts: ActionSet, k: nat): (steps: seq<Step>)
    requires k <= |acts|
    decreases k
  {
    if k == 0 then [] else StepsFirst(acts, k - 1) + EntrySteps(acts[k - 1])
  }

  /**
   * All handler calls of an action set. Each carries a recognised operation;
   * `StepIndexDeclared` adds that a recognised key of the set declares its index.
   */
  function Steps(acts: ActionSet): (steps: seq<Step>)
    ensures forall q :: 0 <= q < |steps| ==> !steps[q].kind.Unknown?
  {
    StepsDeclared(acts);
    StepsFirst(acts, |acts|)
  }

  /** The handler calls made before the `j`-th index of the recognised `k`-th key. */
  function StepsBefore(acts: ActionSet, k: nat, j: nat): (steps: seq<Step>)
    requires k < |acts| && acts[k].0 in ActionNames && j <= |acts[k].1|
  {
    StepsFirst(acts, k) + KeySteps(ParseAction(acts[k].0), acts[k].1, j)
  }

  /** Some recognised key among keys `lo` to `hi - 1` of `acts` declares index `i`. */
  ghost predicate DeclaresBetween(acts: ActionSet, lo: int, hi: int, i: int)
  {
    exists k :: lo <= k < hi && 0 <= k < |acts| && acts[k].0 in ActionNames && i in acts[k].1
  }

  /** Some recognised key of `acts` declares index `i`. */
  ghost predicate Declares(acts: ActionSet, i: int)
  {
    DeclaresBetween(acts, 0, |acts|, i)
  }

  /** Every index declared under a recognised key addresses one of `n` strips. */
  predicate WellFormed(acts: ActionSet, n: nat)
  {
    forall k, i :: 0 <= k < |acts| && acts[k].0 in ActionNames && i in acts[k].1 ==> 1 <= i <= n
  }

  /** Every step addresses one of `n` strips with a recognised operation. */
  predicate StepsValid(steps: seq<Step>, n: nat)
  {
    forall q :: 0 <= q < |steps| ==> ValidStep(steps[q], n)
  }

  /** Number of the first `n` steps that address declared index `i`. */
  function TouchesFirst(steps: seq<Step>, n: nat, i: int): (count: nat)
    requires n <= |steps|
    decreases n
  {
    if n == 0 then 0
    else TouchesFirst(steps, n - 1, i) + (if steps[n - 1].index == i then 1 else 0)
  }

  /** The mute flags after the first `n` steps, applied first to last. */
  function RunFirst(flags: seq<bool>, steps: seq<Step>, n: nat): (r: seq<bool>)
    requires n <= |steps|
    ensures |r| == |flags|
    decreases n
  {
    if n == 0 then flags
    else ApplyStep(RunFirst(flags, steps, n - 1), steps[n - 1])
  }

  /** The mute flags after all the steps; a strip that no step addresses keeps its flag. */
  function Run(flags: seq<bool>, steps: seq<Step>): (r: seq<bool>)
    ensures |r| == |flags|
    ensures forall s {:trigger r[s]} :: 0 <= s < |flags| && (forall q :: 0 <= q < |steps| ==> steps[q].index != s + 1) ==> r[s] == flags[s]
  {
    RunUntouched(flags, steps);
    RunFirst(flags, steps, |steps|)
  }

  /** The mute flags after the observer has handled a change to `scene`. */
  function Dispatch(flags: seq<bool>, mapping: SceneMapping, scene: string): (r: seq<bool>)
    requires scene in mapping ==> WellFormed(mapping[scene], |flags|)
    ensures |r| == |flags|
  {
    if scene !in mapping || mapping[scene] == [] then flags
    else Run(flags, Steps(mapping[scene]))
  }

  // ----- The step sequence of an action set -----

  /** The calls of the first `n` keys depend on those keys alone. */
  lemma {:induction false} StepsFirstAgree(a: ActionSet, b: ActionSet, n: nat)
    requires n <= |a| && n <= |b|
    requires forall q :: 0 <= q < n ==> a[q] == b[q]
    ensures StepsFirst(a, n) == StepsFirst(b, n)
    decreases n
  {
    if n > 0 {
      StepsFirstAgree(a, b, n - 1);
    }
  }

  /** The calls of `a` followed by the first `m` keys of `b`. */
  lemma {:induction false} StepsFirstAppend(a: ActionSet, b: ActionSet, m: nat)
    requires m <= |b|
    ensures StepsFirst(a + b, |a| + m) == Steps(a) + StepsFirst(b, m)
    decreases m
  {
    if m == 0 {
      StepsFirstAgree(a + b, a, |a|);
    } else {
      StepsFirstAppend(a, b, m - 1);
      assert (a + b)[|a| + m - 1] == b[m - 1];
    }
  }

  /** An action set's calls are those of its first part followed by those of the rest. */
  lemma StepsAppend(a: ActionSet, b: ActionSet)
    ensures Steps(a + b) == Steps(a) + Steps(b)
  {
    StepsFirstAppend(a, b, |b|);
  }

  /** Handling more keys only appends calls: the calls of the first `k` keys are a prefix. */
  lemma {:induction false} StepsFirstGrow(acts: ActionSet, k: nat, k': nat)
    requires k <= k' <= |acts|
    ensures |StepsFirst(acts, k)| <= |StepsFirst(acts, k')|
    ensures forall q :: 0 <= q < |StepsFirst(acts, k)| ==> StepsFirst(acts, k')[q] == StepsFirst(acts, k)[q]
    decreases k'
  {
    if k' > k {
      StepsFirstGrow(acts, k, k' - 1);
    }
  }

  /** Handling index `j` of a key appends one call for that index. */
  lemma KeyStepsNext(kind: ActionKind, indices: seq<int>, j: nat)
    requires j < |indices|
    ensures KeySteps(kind, indices, j + 1) == KeySteps(kind, indices, j) + [Step(kind, indices[j])]
  {
  }

  /**
   * A call made while keys `lo` to `hi - 1` are handled carries a recognised
   * operation and an index that one of those keys declares.
   */
  lemma {:induction false} StepDeclaredBetween(acts: ActionSet, lo: nat, hi: nat, q: nat)
    requires lo <= hi <= |acts|
    requires |StepsFirst(acts, lo)| <= q < |StepsFirst(acts, hi)|
    ensures !StepsFirst(acts, hi)[q].kind.Unknown?
    ensures DeclaresBetween(acts, lo, hi, StepsFirst(acts, hi)[q].index)
    decreases hi
  {
    var prev := StepsFirst(acts, hi - 1);
    var last := acts[hi - 1];
    if q < |prev| {
      StepDeclaredBetween(acts, lo, hi - 1, q);
      assert StepsFirst(acts, hi)[q] == prev[q];
    } else {
      var r := q - |prev|;
      assert StepsFirst(acts, hi)[q] == EntrySteps(last)[r];
      assert last.1[r] in last.1;
      assert lo <= hi - 1 < hi && acts[hi - 1] == last;
    }
  }

  /** `StepDeclaredBetween` for every call of an action set. */
  lemma StepsDeclared(acts: ActionSet)
    ensures forall q :: 0 <= q < |StepsFirst(acts, |acts|)| ==>
              !StepsFirst(acts, |acts|)[q].kind.Unknown? && Declares(acts, StepsFirst(acts, |acts|)[q].index)
  {
    forall q | 0 <= q < |StepsFirst(acts, |acts|)|
      ensures !StepsFirst(acts, |acts|)[q].kind.Unknown? && Declares(acts, StepsFirst(acts, |acts|)[q].index)
    {
      StepDeclaredBetween(acts, 0, |acts|, q);
    }
  }

  /** Every call of an action set comes from an index declared under a recognised key. */
  lemma StepIndexDeclared(acts: ActionSet, q: nat)
    requires q < |Steps(acts)|
    ensures Declares(acts, Steps(acts)[q].index)
  {
    StepDeclaredBetween(acts, 0, |acts|, q);
  }

  /**
   * A well-formed action set makes only calls the mixer can carry out, so a
   * dispatch never reaches the case of `ApplyStep` that changes nothing.
   */
  lemma StepsInRange(acts: ActionSet, n: nat)
    requires WellFormed(acts, n)
    ensures StepsValid(Steps(acts), n)
  {
    forall q | 0 <= q < |Steps(acts)| ensures ValidStep(Steps(acts)[q], n) {
      StepIndexDeclared(acts, q);
    }
  }

  /**
   * Declared order: the calls before index `j` of key `k` are exactly the
   * first calls, the next call is that index under that key, and each later
   * call is a later index of the same key or comes from a later key.
   */
  lemma DeclaredOrder(acts: ActionSet, k: nat, j: nat)
    requires k < |acts| && acts[k].0 in ActionNames && j < |acts[k].1|
    ensures var before, all := StepsBefore(acts, k, j), Steps(acts);
      && |before| < |all|
      && (forall q :: 0 <= q < |before| ==> all[q] == before[q])
      && all[|before|] == Step(ParseAction(acts[k].0), acts[k].1[j])
      && forall q :: |before| < q < |all| ==>
           || (exists j' :: j < j' < |acts[k].1| && all[q] == Step(ParseAction(acts[k].0), acts[k].1[j']))
           || DeclaresBetween(acts, k + 1, |acts|, all[q].index)
  {
    var kind := ParseAction(acts[k].0);
    var idx := acts[k].1;
    var head := StepsFirst(acts, k);
    var before := StepsBefore(acts, k, j);
    var upto := StepsFirst(acts, k + 1);
    var all := Steps(acts);
    assert upto == head + KeySteps(kind, idx, |idx|);
    StepsFirstGrow(acts, k + 1, |acts|);
    forall q | 0 <= q <= |before| ensures all[q] == (before + [Step(kind, idx[j])])[q] {
      assert all[q] == upto[q];
    }
    forall q | |before| < q < |all|
      ensures || (exists j' :: j < j' < |idx| && all[q] == Step(kind, idx[j']))
              || DeclaresBetween(acts, k + 1, |acts|, all[q].index)
    {
      if q < |upto| {
        assert all[q] == upto[q] == Step(kind, idx[q - |head|]);
      } else {
        StepDeclaredBetween(acts, k + 1, |acts|, q);
      }
    }
  }

  /** An action set with no recognised key makes no call. */
  lemma {:induction false} InertStepsEmpty(acts: ActionSet, k: nat)
    requires k <= |acts|
    requires forall k' :: 0 <= k' < |acts| ==> acts[k'].0 !in ActionNames
    ensures StepsFirst(acts, k) == []
    decreases k
  {
    if k > 0 {
      InertStepsEmpty(acts, k - 1);
    }
  }

  // ----- Applying steps -----

  /** The flags after the first `n` calls depend on those calls alone. */
  lemma {:induction false} RunFirstAgree(flags: seq<bool>, a: seq<Step>, b: seq<Step>, n: nat)
    requires n <= |a| && n <= |b|
    requires forall q :: 0 <= q < n ==> a[q] == b[q]
    ensures RunFirst(flags, a, n) == RunFirst(flags, b, n)
    decreases n
  {
    if n > 0 {
      RunFirstAgree(flags, a, b, n - 1);
    }
  }

  /** Applying one more call is one more handler update. */
  lemma RunSnoc(flags: seq<bool>, steps: seq<Step>, st: Step)
    ensures Run(flags, steps + [st]) == ApplyStep(Run(flags, steps), st)
  {
    RunFirstAgree(flags, steps + [st], steps, |steps|);
  }

  /** A strip that none of calls `lo` to `n - 1` addresses keeps its mute flag across them. */
  lemma {:induction false} RunFrame(flags: seq<bool>, steps: seq<Step>, lo: nat, n: nat, s: int)
    requires lo <= n <= |steps| && 0 <= s < |flags|
    requires forall q :: lo <= q < n ==> steps[q].index != s + 1
    ensures RunFirst(flags, steps, n)[s] == RunFirst(flags, steps, lo)[s]
    decreases n
  {
    if n > lo {
      RunFrame(flags, steps, lo, n - 1, s);
    }
  }

  /** `RunFrame` over all the calls. */
  lemma RunUntouched(flags: seq<bool>, steps: seq<Step>)
    ensures forall s :: 0 <= s < |flags| && (forall q :: 0 <= q < |steps| ==> steps[q].index != s + 1)
              ==> RunFirst(flags, steps, |steps|)[s] == flags[s]
  {
    forall s | 0 <= s < |flags| && (forall q :: 0 <= q < |steps| ==> steps[q].index != s + 1)
      ensures RunFirst(flags, steps, |steps|)[s] == flags[s]
    {
      RunFrame(flags, steps, 0, |steps|, s);
    }
  }

  /**
   * The last call to address a strip decides its final flag, from the flag it
   * had just before that call.
   */
  lemma LastTouchDecides(flags: seq<bool>, steps: seq<Step>, p: nat)
    requires p < |steps| && ValidStep(steps[p], |flags|)
    requires forall q :: p < q < |steps| ==> steps[q].index != steps[p].index
    ensures Run(flags, steps)[steps[p].index - 1]
         == Effect(steps[p].kind, RunFirst(flags, steps, p)[steps[p].index - 1])
  {
    RunFrame(flags, steps, p + 1, |steps|, steps[p].index - 1);
  }

  /**
   * When every call addressing a strip is a toggle, after the first `n` calls
   * the strip is flipped exactly when it was addressed an odd number of times.
   */
  lemma {:induction false} ToggleParity(flags: seq<bool>, steps: seq<Step>, n: nat, s: int)
    requires n <= |steps| && 0 <= s < |flags|
    requires forall q :: 0 <= q < |steps| && steps[q].index == s + 1 ==> steps[q].kind == Toggle
    ensures RunFirst(flags, steps, n)[s] == (flags[s] != (TouchesFirst(steps, n, s + 1) % 2 == 1))
    decreases n
  {
    if n > 0 {
      ToggleParity(flags, steps, n - 1, s);
    }
  }

  // ----- Properties of a scene change -----

  /** For a mapped scene, the dispatch applies all of the scene's calls in order. */
  lemma DispatchRuns(flags: seq<bool>, mapping: SceneMapping, scene: string)
    requires scene in mapping && WellFormed(mapping[scene], |flags|)
    ensures Dispatch(flags, mapping, scene) == Run(flags, Steps(mapping[scene]))
  {
    if mapping[scene] == [] {
      assert Steps(mapping[scene]) == [];
    }
  }

  /**
   * A scene that is not mapped, is mapped to nothing, or whose keys are all
   * outside the handler table leaves every strip as it was.
   */
  lemma InertSceneNoOp(flags: seq<bool>, mapping: SceneMapping, scene: string)
    requires scene in mapping ==> forall k :: 0 <= k < |mapping[scene]| ==> mapping[scene][k].0 !in ActionNames
    ensures scene in mapping ==> WellFormed(mapping[scene], |flags|)
    ensures Dispatch(flags, mapping, scene) == flags
  {
    if scene in mapping {
      InertStepsEmpty(mapping[scene], |mapping[scene]|);
    }
  }

  /** An entry whose key is outside the handler table contributes no call. */
  lemma UnknownEntryNoSteps(pre: ActionSet, key: string, indices: seq<int>, post: ActionSet)
    requires key !in ActionNames
    ensures Steps(pre + [(key, indices)] + post) == Steps(pre + post)
  {
    var entry := [(key, indices)];
    assert Steps(entry) == [] by {
      assert EntrySteps(entry[0]) == [];
      assert StepsFirst(entry, 1) == StepsFirst(entry, 0) + EntrySteps(entry[0]);
    }
    calc {
      Steps(pre + entry + post);
      { StepsAppend(pre + entry, post); }
      Steps(pre + entry) + Steps(post);
      { StepsAppend(pre, entry); }
      Steps(pre) + Steps(entry) + Steps(post);
      Steps(pre) + Steps(post);
      { StepsAppend(pre, post); }
      Steps(pre + post);
    }
  }

  /** The indices under a key outside the handler table are never checked. */
  lemma UnknownEntryWellFormed(pre: ActionSet, key: string, indices: seq<int>, post: ActionSet, n: nat)
    requires key !in ActionNames
    requires WellFormed(pre + post, n)
    ensures WellFormed(pre + [(key, indices)] + post, n)
  {
    var withKey := pre + [(key, indices)] + post;
    forall k, i | 0 <= k < |withKey| && withKey[k].0 in ActionNames && i in withKey[k].1
      ensures 1 <= i <= n
    {
      if k < |pre| {
        assert withKey[k] == (pre + post)[k];
      } else {
        assert k > |pre|;
        assert withKey[k] == (pre + post)[k - 1];
      }
    }
  }

  /**
   * A scene entry whose key is not in the handler table is skipped: its
   * indices are never checked, and removing it changes nothing.
   */
  lemma UnknownKeySkipped(flags: seq<bool>, mapping: SceneMapping, scene: string,
                          pre: ActionSet, key: string, indices: seq<int>, post: ActionSet)
    requires key !in ActionNames
    requires WellFormed(pre + post, |flags|)
    ensures WellFormed(pre + [(key, indices)] + post, |flags|)
    ensures Dispatch(flags, mapping[scene := pre + [(key, indices)] + post], scene)
         == Dispatch(flags, mapping[scene := pre + post], scene)
  {
    UnknownEntryWellFormed(pre, key, indices, post, |flags|);
    UnknownEntryNoSteps(pre, key, indices, post);
  }

  /**
   * A strip whose 1-based number is not declared under any recognised key of
   * the scene keeps its mute flag.
   */
  lemma UndeclaredStripKept(flags: seq<bool>, mapping: SceneMapping, scene: string, s: int)
    requires scene in mapping ==> WellFormed(mapping[scene], |flags|)
    requires 0 <= s < |flags|
    requires scene in mapping ==> !Declares(mapping[scene], s + 1)
    ensures Dispatch(flags, mapping, scene)[s] == flags[s]
  {
    if scene in mapping && mapping[scene] != [] {
      var acts := mapping[scene];
      forall q | 0 <= q < |Steps(acts)| ensures Steps(acts)[q].index != s + 1 {
        StepIndexDeclared(acts, q);
      }
    }
  }

  /** No later call, in declared order, addresses the `j`-th index of the `k`-th key. */
  ghost predicate NoLaterTouch(acts: ActionSet, k: nat, j: nat)
    requires k < |acts| && j < |acts[k].1|
  {
    var i := acts[k].1[j];
    && (forall j' :: j < j' < |acts[k].1| ==> acts[k].1[j'] != i)
    && !DeclaresBetween(acts, k + 1, |acts|, i)
  }

  /** The calls after index `j` of key `k` all address other channels. */
  lemma LaterStepsMiss(acts: ActionSet, k: nat, j: nat)
    requires k < |acts| && acts[k].0 in ActionNames && j < |acts[k].1|
    requires NoLaterTouch(acts, k, j)
    ensures forall q :: |StepsBefore(acts, k, j)| < q < |Steps(acts)| ==> Steps(acts)[q].index != acts[k].1[j]
  {
    DeclaredOrder(acts, k, j);
  }

  /** `LastDeclaredDecides` for the calls of one action set. */
  lemma LastDeclaredDecidesRun(flags: seq<bool>, acts: ActionSet, k: nat, j: nat)
    requires WellFormed(acts, |flags|)
    requires k < |acts| && acts[k].0 in ActionNames && j < |acts[k].1|
    requires NoLaterTouch(acts, k, j)
    ensures var s := acts[k].1[j] - 1;
      0 <= s < |flags| &&
      Run(flags, Steps(acts))[s] == Effect(ParseAction(acts[k].0), Run(flags, StepsBefore(acts, k, j))[s])
  {
    assert acts[k].1[j] in acts[k].1;
    var steps := Steps(acts);
    var before := StepsBefore(acts, k, j);
    var p := |before|;
    DeclaredOrder(acts, k, j);
    LaterStepsMiss(acts, k, j);
    LastTouchDecides(flags, steps, p);
    RunFirstAgree(flags, steps, before, p);
  }

  /**
   * Index `j` of recognised key `k`, when nothing later addresses it, leaves
   * its strip with the flag its operation gives to the flag the strip had
   * just before that call.
   */
  lemma LastDeclaredDecides(flags: seq<bool>, mapping: SceneMapping, scene: string, k: nat, j: nat)
    requires scene in mapping && WellFormed(mapping[scene], |flags|)
    requires k < |mapping[scene]| && mapping[scene][k].0 in ActionNames && j < |mapping[scene][k].1|
    requires NoLaterTouch(mapping[scene], k, j)
    ensures var acts := mapping[scene]; var s := acts[k].1[j] - 1;
      0 <= s < |flags| &&
      Dispatch(flags, mapping, scene)[s] == Effect(ParseAction(acts[k].0), Run(flags, StepsBefore(acts, k, j))[s])
  {
    LastDeclaredDecidesRun(flags, mapping[scene], k, j);
    DispatchRuns(flags, mapping, scene);
  }

  /** An index under `mute` that nothing later addresses ends muted. */
  lemma MuteSticks(flags: seq<bool>, mapping: SceneMapping, scene: string, k: nat, j: nat)
    requires scene in mapping && WellFormed(mapping[scene], |flags|)
    requires k < |mapping[scene]| && mapping[scene][k].0 == "mute" && j < |mapping[scene][k].1|
    requires NoLaterTouch(mapping[scene], k, j)
    ensures var s := mapping[scene][k].1[j] - 1;
      0 <= s < |flags| && Dispatch(flags, mapping, scene)[s]
  {
    LastDeclaredDecides(flags, mapping, scene, k, j);
  }

  /** An index under `unmute` that nothing later addresses ends unmuted. */
  lemma UnmuteSticks(flags: seq<bool>, mapping: SceneMapping, scene: string, k: nat, j: nat)
    requires scene in mapping && WellFormed(mapping[scene], |flags|)
    requires k < |mapping[scene]| && mapping[scene][k].0 == "unmute" && j < |mapping[scene][k].1|
    requires NoLaterTouch(mapping[scene], k, j)
    ensures var s := mapping[scene][k].1[j] - 1;
      0 <= s < |flags| && !Dispatch(flags, mapping, scene)[s]
  {
    LastDeclaredDecides(flags, mapping, scene, k, j);
  }

  /**
   * A strip addressed only by toggles, exactly twice in the whole scene,
   * ends with the flag it started with.
   */
  lemma ToggleTwiceRestores(flags: seq<bool>, mapping: SceneMapping, scene: string, s: int)
    requires scene in mapping && WellFormed(mapping[scene], |flags|)
    requires 0 <= s < |flags|
    requires forall q :: 0 <= q < |Steps(mapping[scene])| && Steps(mapping[scene])[q].index == s + 1
               ==> Steps(mapping[scene])[q].kind == Toggle
    requires TouchesFirst(Steps(mapping[scene]), |Steps(mapping[scene])|, s + 1) == 2
    ensures Dispatch(flags, mapping, scene)[s] == flags[s]
  {
    var steps := Steps(mapping[scene]);
    ToggleParity(flags, steps, |steps|, s);
  }

  /**
   * Last write wins: with `mute` declared before `unmute` for channel 1, strip
   * 0 ends unmuted; with the keys the other way round it ends muted.
   */
  lemma DeclaredOrderDecidesExample(flags: seq<bool>, mapping: SceneMapping)
    requires |flags| >= 1
    ensures Dispatch(flags, mapping["live" := [("mute", [1]), ("unmute", [1])]], "live")[0] == false
    ensures Dispatch(flags, mapping["live" := [("unmute", [1]), ("mute", [1])]], "live")[0] == true
  {
    var m1 := mapping["live" := [("mute", [1]), ("unmute", [1])]];
    var m2 := mapping["live" := [("unmute", [1]), ("mute", [1])]];
    UnmuteSticks(flags, m1, "live", 1, 0);
    MuteSticks(flags, m2, "live", 1, 0);
  }

  /** `{mute: [1, 3]}` mutes strips 0 and 2 and leaves every other strip alone. */
  lemma MuteListExample(flags: seq<bool>, mapping: SceneMapping)
    requires |flags| >= 3
    ensures var r := Dispatch(flags, mapping["live" := [("mute", [1, 3])]], "live");
      && r[0] && r[2]
      && forall s :: 0 <= s < |flags| && s != 0 && s != 2 ==> r[s] == flags[s]
  {
    var m := mapping["live" := [("mute", [1, 3])]];
    var acts := m["live"];
    MuteSticks(flags, m, "live", 0, 0);
    MuteSticks(flags, m, "live", 0, 1);
    forall s | 0 <= s < |flags| && s != 0 && s != 2
      ensures Dispatch(flags, m, "live")[s] == flags[s]
    {
      assert !Declares(acts, s + 1);
      UndeclaredStripKept(flags, m, "live", s);
    }
  }
}

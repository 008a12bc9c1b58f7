/**
 * The observer that reacts to the production tool's notifications: on a
 * program-scene change it runs the scene's mute, unmute and toggle actions
 * against the mixer's strips, one handler call at a time; on the tool's
 * closing notification it sets the stop event the main thread waits on.
 */
module Bridge {
  import opened Actions
  import opened SceneDispatch

  /** The remote mixer, reduced to the mute flag of each of its strips. */
  class Mixer {
    const strips: array<bool>

    constructor (initial: seq<bool>)
      ensures fresh(strips) && strips[..] == initial
    {
      strips := new bool[|initial|](s requires 0 <= s < |initial| => initial[s]);
    }
  }

  /** A one-shot stop signal: once set it stays set. */
  class StopEvent {
    var isSet: bool

    constructor ()
      ensures !isSet
    {
      isSet := false;
    }

    /** Setting the signal again changes nothing. */
    method Set()
      modifies this
      ensures isSet
      ensures old(isSet) ==> unchanged(this)
    {
      isSet := true;
    }
  }

  class Observer {
    const mixer: Mixer
    const stopEvent: StopEvent
    const mapping: SceneMapping

    constructor (mixer: Mixer, stopEvent: StopEvent, mapping: SceneMapping)
      ensures this.mixer == mixer && this.stopEvent == stopEvent && this.mapping == mapping
    {
      this.mixer := mixer;
      this.stopEvent := stopEvent;
      this.mapping := mapping;
    }

    /** Handles a program-scene change: applies the scene's actions in declared order. */
    method OnCurrentProgramSceneChanged(scene: string)
      requires scene in mapping ==> WellFormed(mapping[scene], mixer.strips.Length)
      modifies mixer.strips
      ensures mixer.strips[..] == Dispatch(old(mixer.strips[..]), mapping, scene)
      ensures scene !in mapping || mapping[scene] == [] ==> unchanged(mixer.strips)
    {
      if scene !in mapping || mapping[scene] == [] {
        return;
      }
      var acts := mapping[scene];
      ghost var start := mixer.strips[..];
      ghost var done: seq<Step> := [];
      var k := 0;
      while k < |acts|
        invariant 0 <= k <= |acts|
        invariant done == StepsFirst(acts, k)
        invariant mixer.strips[..] == Run(start, done)
      {
        var (key, indices) := acts[k];
        var kind := ParseAction(key);
        if !kind.Unknown? {
          var j := 0;
          while j < |indices|
            invariant 0 <= j <= |indices|
            invariant done == StepsFirst(acts, k) + KeySteps(kind, indices, j)
            invariant mixer.strips[..] == Run(start, done)
          {
            var i := indices[j];
            assert 1 <= i <= mixer.strips.Length by {
              assert i in acts[k].1;
            }
            ghost var before := mixer.strips[..];
            match kind {
              case Mute => MuteHandler(i - 1);
              case Unmute => UnmuteHandler(i - 1);
              case Toggle => ToggleHandler(i - 1);
            }
            assert mixer.strips[..] == ApplyStep(before, Step(kind, i));
            RunSnoc(start, done, Step(kind, i));
            KeyStepsNext(kind, indices, j);
            done := done + [Step(kind, i)];
            j := j + 1;
          }
        }
        k := k + 1;
      }
      DispatchRuns(start, mapping, scene);
    }

    /** Mutes strip `r`. */
    method MuteHandler(r: int)
      requires 0 <= r < mixer.strips.Length
      modifies mixer.strips
      ensures mixer.strips[..] == old(mixer.strips[..])[r := true]
    {
      mixer.strips[r] := true;
    }

    /** Unmutes strip `r`. */
    method UnmuteHandler(r: int)
      requires 0 <= r < mixer.strips.Length
      modifies mixer.strips
      ensures mixer.strips[..] == old(mixer.strips[..])[r := false]
    {
      mixer.strips[r] := false;
    }

    /** Flips the mute flag of strip `r`, as read at the moment of the call. */
    method ToggleHandler(r: int)
      requires 0 <= r < mixer.strips.Length
      modifies mixer.strips
      ensures mixer.strips[..] == old(mixer.strips[..])[r := !old(mixer.strips[r])]
    {
      mixer.strips[r] := !mixer.strips[r];
    }

    /** Handles the production tool's closing notification: signals the main thread to stop. */
    method OnExitStarted()
      modifies stopEvent
      ensures stopEvent.isSet
      ensures old(stopEvent.isSet) ==> unchanged(stopEvent)
    {
      stopEvent.Set();
    }
  }
}

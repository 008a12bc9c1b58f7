/**
 * The three channel operations a scene can ask for, how an action key of the
 * scene mapping names one of them, and what one operation does to the mute
 * flags of the mixer's strips.
 */
module Actions {

  /** The keys of the observer's handler table; any other key is inert. */
  const ActionNames: set<string> := {"mute", "unmute", "toggle"}

  /** An action key, read as one of the three operations or kept as an inert key. */
  datatype ActionKind = Mute | Unmute | Toggle | Unknown(key: string)

  /** The action key that names `kind`. */
  function KeyOf(kind: ActionKind): (key: string)
  {
    match kind
    case Mute => "mute"
    case Unmute => "unmute"
    case Toggle => "toggle"
    case Unknown(key) => key
  }

  /**
   * Looks an action key up in the handler table. The key is kept exactly, and
   * it is recognised precisely when the table has it.
   */
  function ParseAction(key: string): (kind: ActionKind)
    ensures KeyOf(kind) == key
    ensures kind.Unknown? <==> key !in ActionNames
  {
    if key == "mute" then Mute
    else if key == "unmute" then Unmute
    else if key == "toggle" then Toggle
    else Unknown(key)
  }

  /** Reading back the key of a kind gives the kind again. */
  lemma ParseKeyOf(kind: ActionKind)
    requires kind.Unknown? ==> kind.key !in ActionNames
    ensures ParseAction(KeyOf(kind)) == kind
  {
  }

  /** The mute flag a recognised operation leaves on a strip whose flag was `muted`. */
  function Effect(kind: ActionKind, muted: bool): (r: bool)
    requires !kind.Unknown?
    ensures !kind.Toggle? ==> r == kind.Mute?
    ensures kind.Toggle? ==> r != muted
  {
    match kind
    case Mute => true
    case Unmute => false
    case Toggle => !muted
  }

  /**
   * Repeating an operation: `mute` and `unmute` are idempotent, and a second
   * `toggle` undoes the first.
   */
  lemma EffectTwice(kind: ActionKind, muted: bool)
    requires !kind.Unknown?
    ensures Effect(kind, Effect(kind, muted)) == if kind.Toggle? then muted else Effect(kind, muted)
  {
  }

  /** One handler call: an operation and the declared 1-based channel index it targets. */
  datatype Step = Step(kind: ActionKind, index: int)

  /** The declared 1-based index addresses strip `index - 1`. */
  function StripRef(index: int): (r: int)
    ensures r + 1 == index
    ensures index >= 1 <==> r >= 0
  {
    index - 1
  }

  /** A step that a mixer with `n` strips can carry out. */
  predicate ValidStep(st: Step, n: nat)
  {
    !st.kind.Unknown? && 1 <= st.index <= n
  }

  /**
   * The mute flags after one step: only the addressed strip changes. A step
   * that addresses no strip of this mixer changes nothing; a scene that is
   * well formed for the mixer never makes one.
   */
  function ApplyStep(flags: seq<bool>, st: Step): (r: seq<bool>)
    ensures |r| == |flags|
    ensures ValidStep(st, |flags|) ==> r[st.index - 1] == Effect(st.kind, flags[st.index - 1])
    ensures forall s {:trigger r[s]} :: 0 <= s < |flags| && s != st.index - 1 ==> r[s] == flags[s]
    ensures !ValidStep(st, |flags|) ==> r == flags
  {
    if ValidStep(st, |flags|) then flags[StripRef(st.index) := Effect(st.kind, flags[StripRef(st.index)])]
    else flags
  }
}

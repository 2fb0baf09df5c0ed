/** The typewriter headline of the home page. Every timer tick either types
    the next character of the current role, pauses and switches to deleting,
    deletes the last character, or moves on to the next role. Timers are not
    modelled: each firing is one call to `Step`, and the 2000 ms pause before
    deleting is the single tick that sets the deleting flag. */
module Hero {

  const Roles: seq<string> := [
    "Full-Stack Web Developer",
    "React Enthusiast",
    "Problem Solver",
    "UI/UX Lover"
  ]

  /** The three state variables as one value. */
  datatype Frame = Frame(role: nat, text: string, deleting: bool)

  /** The displayed text is always a prefix of the role being shown. */
  predicate Consistent(f: Frame) {
    f.role < |Roles| && f.text <= Roles[f.role]
  }

  /** `useState(0)`, `useState('')`, `useState(false)`. */
  const Start: Frame := Frame(0, "", false)

  /** The transition made by one timer firing. */
  function Tick(f: Frame): (g: Frame)
    requires f.role < |Roles|
    ensures g.role < |Roles|
    ensures Consistent(f) ==> Consistent(g)
  {
    var role := Roles[f.role];
    if !f.deleting then
      if |f.text| < |role| then f.(text := role[..|f.text| + 1])
      else f.(deleting := true)
    else
      if |f.text| > 0 then f.(text := f.text[..|f.text| - 1])
      else Frame((f.role + 1) % |Roles|, f.text, false)
  }

  /** While typing an incomplete role, a tick appends exactly the next character of it. */
  lemma TypesNextChar(f: Frame)
    requires Consistent(f) && !f.deleting && |f.text| < |Roles[f.role]|
    ensures Tick(f) == f.(text := f.text + [Roles[f.role][|f.text|]])
  {
    var role := Roles[f.role];
    assert role[..|f.text|] == f.text;
    assert role[..|f.text| + 1] == role[..|f.text|] + [role[|f.text|]];
  }

  /** Once the role is fully typed, a tick leaves the text alone and starts deleting. */
  lemma PausesWhenComplete(f: Frame)
    requires Consistent(f) && !f.deleting && |f.text| == |Roles[f.role]|
    ensures Tick(f) == Frame(f.role, Roles[f.role], true)
  {
  }

  /** While deleting a non-empty text, a tick removes exactly its last character. */
  lemma DeletesLastChar(f: Frame)
    requires f.role < |Roles| && f.deleting && |f.text| > 0
    ensures Tick(f).text + [f.text[|f.text| - 1]] == f.text
    ensures Tick(f).role == f.role && Tick(f).deleting
  {
  }

  /** With everything deleted, a tick moves on to the next role, wrapping after the last. */
  lemma AdvancesRole(f: Frame)
    requires f.role < |Roles| && f.deleting && f.text == ""
    ensures Tick(f) == Frame((f.role + 1) % |Roles|, "", false)
  {
  }

  /** `n` successive timer firings. */
  function Run(f: Frame, n: nat): (g: Frame)
    requires f.role < |Roles|
    ensures g.role < |Roles|
    ensures Consistent(f) ==> Consistent(g)
    decreases n
  {
    if n == 0 then f else Run(Tick(f), n - 1)
  }

  lemma {:induction false} RunAdd(f: Frame, a: nat, b: nat)
    requires f.role < |Roles|
    ensures Run(f, a + b) == Run(Run(f, a), b)
    decreases a
  {
    if a > 0 {
      RunAdd(Tick(f), a - 1, b);
    }
  }

  lemma {:induction false} TypesRestOfRole(r: nat, k: nat)
    requires r < |Roles| && k <= |Roles[r]|
    ensures Run(Frame(r, Roles[r][..k], false), |Roles[r]| - k) == Frame(r, Roles[r], false)
    decreases |Roles[r]| - k
  {
    if k < |Roles[r]| {
      TypesNextChar(Frame(r, Roles[r][..k], false));
      assert Roles[r][..k] + [Roles[r][k]] == Roles[r][..k + 1];
      TypesRestOfRole(r, k + 1);
    } else {
      assert Roles[r][..k] == Roles[r];
    }
  }

  lemma {:induction false} DeletesWholeText(r: nat, text: string)
    requires r < |Roles|
    ensures Run(Frame(r, text, true), |text|) == Frame(r, "", true)
    decreases |text|
  {
    if text != [] {
      DeletesWholeText(r, text[..|text| - 1]);
    }
  }

  /** One full cycle: from an empty text, |role| ticks type the role, one tick
      pauses, |role| ticks delete it and one tick moves to the next role. */
  lemma RoleCycle(r: nat)
    requires r < |Roles|
    ensures Run(Frame(r, "", false), 2 * |Roles[r]| + 2) == Frame((r + 1) % |Roles|, "", false)
  {
    var n := |Roles[r]|;
    var typed := Frame(r, Roles[r], false);
    RunAdd(Frame(r, "", false), n, n + 2);
    TypesRestOfRole(r, 0);
    assert Roles[r][..0] == "";
    assert Run(typed, n + 2) == Run(Frame(r, Roles[r], true), n + 1);
    RunAdd(Frame(r, Roles[r], true), n, 1);
    DeletesWholeText(r, Roles[r]);
  }

  /** The component's state, updated in place by each timer firing. */
  class Typewriter {
    var currentRole: nat
    var displayText: string
    var isDeleting: bool

    function State(): Frame
      reads this
    {
      Frame(currentRole, displayText, isDeleting)
    }

    ghost predicate Valid()
      reads this
    {
      Consistent(State())
    }

    constructor ()
      ensures Valid() && State() == Start
    {
      currentRole, displayText, isDeleting := 0, "", false;
    }

    /** `typingSpeed`: the delay in milliseconds before the next firing. */
    function TypingSpeed(): (ms: nat)
      reads this
      ensures ms == 50 <==> isDeleting
      ensures ms == 100 <==> !isDeleting
    {
      if isDeleting then 50 else 100
    }

    /** One timer firing: the body of the effect's timeout callback. */
    method Step()
      requires Valid()
      modifies this
      ensures Valid()
      ensures State() == Tick(old(State()))
    {
      var role := Roles[currentRole];
      if !isDeleting {
        if |displayText| < |role| {
          displayText := role[..|displayText| + 1];
        } else {
          isDeleting := true;
        }
      } else {
        if |displayText| > 0 {
          displayText := displayText[..|displayText| - 1];
        } else {
          isDeleting := false;
          currentRole := (currentRole + 1) % |Roles|;
        }
      }
    }
  }
}

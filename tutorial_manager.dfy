/**
 * `TutorialManager` (TutorialManager.kt): a five-step tutorial with a step
 * counter and an active flag.  The `TextView` it writes to and the
 * `VoicePlayer` it speaks through are passed in as `Screen` and `Speaker`.
 */
module TutorialManager {

  /** The text and visibility of the tutorial's `TextView`. */
  class Screen {
    var text: string
    var visible: bool

    constructor()
      ensures text == "" && visible
    {
      text := "";
      visible := true;
    }
  }

  /** The lines a `VoicePlayer` has been asked to say, oldest first. */
  class Speaker {
    var said: seq<string>

    constructor()
      ensures said == []
    {
      said := [];
    }
  }

  const STEPS: seq<string> := [
    "Benvenuto nel Labirinto. Ogni passo conta.",
    "Muoviti usando le frecce direzionali.",
    "Ogni personaggio ha una sola skill speciale: usala con saggezza.",
    "Evita le trappole e raggiungi il centro del labirinto.",
    "Buona fortuna, Guardiano."
  ]

  const HINTS: seq<string> := [
    "Tocca lo schermo per continuare",
    "Usa i controlli di movimento",
    "Premi il pulsante skill quando disponibile",
    "Evita le celle rosse (trappole)",
    "Inizia la tua avventura!"
  ]

  /** The decimal digits of `n`, as a string template prints it. */
  function NatToString(n: nat): (r: string)
    ensures |r| >= 1 && forall i | 0 <= i < |r| :: '0' <= r[i] <= '9'
    ensures n < 10 ==> r == [('0' as int + n) as char]
  {
    if n < 10 then [('0' as int + n) as char] else NatToString(n / 10) + [('0' as int + n % 10) as char]
  }

  class TutorialManager {
    var currentStep: int
    var isActive: bool

    /** The step stays within the tutorial, and below its length while the tutorial runs. */
    ghost predicate Valid()
      reads this
    {
      0 <= currentStep <= |STEPS| && (isActive ==> currentStep < |STEPS|)
    }

    constructor()
      ensures Valid() && currentStep == 0 && !isActive
    {
      currentStep := 0;
      isActive := false;
    }

    /** `start`: back to the first step, active, and that step shown and spoken. */
    method Start(speaker: Speaker, screen: Screen)
      modifies this, speaker, screen
      ensures Valid() && currentStep == 0 && isActive
      ensures screen.text == STEPS[0] && speaker.said == old(speaker.said) + [STEPS[0]]
      ensures screen.visible == old(screen.visible)
    {
      currentStep := 0;
      isActive := true;
      screen.text := STEPS[currentStep];
      speaker.said := speaker.said + [STEPS[currentStep]];
    }

    /**
     * `next`: nothing when inactive.  Otherwise the next step is shown and
     * spoken, or, past the last step, the tutorial completes.
     */
    method Next(speaker: Speaker, screen: Screen)
      requires Valid()
      modifies this, speaker, screen
      ensures Valid()
      ensures !old(isActive) ==>
        currentStep == old(currentStep) && !isActive && unchanged(speaker) && unchanged(screen)
      ensures old(isActive) && old(currentStep) + 1 < |STEPS| ==>
        currentStep == old(currentStep) + 1 && isActive &&
        screen.text == STEPS[currentStep] && speaker.said == old(speaker.said) + [STEPS[currentStep]] &&
        screen.visible == old(screen.visible)
      ensures old(isActive) && old(currentStep) + 1 == |STEPS| ==>
        currentStep == |STEPS| && !isActive &&
        screen.text == "Tutorial completato." && speaker.said == old(speaker.said) + ["Ora tocca a te."] &&
        !screen.visible
    {
      if !isActive {
        return;
      }
      currentStep := currentStep + 1;
      if currentStep < |STEPS| {
        screen.text := STEPS[currentStep];
        speaker.said := speaker.said + [STEPS[currentStep]];
      } else {
        Complete(speaker, screen);
      }
    }

    /** `complete`: the closing text and line, inactive, and the text hidden (after its delay). */
    method Complete(speaker: Speaker, screen: Screen)
      requires 0 <= currentStep <= |STEPS|
      modifies this, speaker, screen
      ensures Valid() && !isActive && currentStep == old(currentStep)
      ensures screen.text == "Tutorial completato." && speaker.said == old(speaker.said) + ["Ora tocca a te."]
      ensures !screen.visible
    {
      screen.text := "Tutorial completato.";
      speaker.said := speaker.said + ["Ora tocca a te."];
      isActive := false;
      screen.visible := false;
    }

    /** `skip`: inactive at once, the step left where it was. */
    method Skip(speaker: Speaker, screen: Screen)
      requires Valid()
      modifies this, speaker, screen
      ensures Valid() && !isActive && currentStep == old(currentStep)
      ensures speaker.said == old(speaker.said) + ["Tutorial saltato."]
      ensures !screen.visible && screen.text == old(screen.text)
    {
      speaker.said := speaker.said + ["Tutorial saltato."];
      isActive := false;
      screen.visible := false;
    }

    /** `getProgress`: "Step k/5" for the one-based step while active. */
    function GetProgress(): (r: string)
      requires Valid()
      reads this
      ensures isActive ==> r == "Step " + [('1' as int + currentStep) as char] + "/5"
      ensures !isActive ==> r == "Tutorial completato"
    {
      if isActive then "Step " + NatToString(currentStep + 1) + "/" + NatToString(|STEPS|)
      else "Tutorial completato"
    }

    /** `getCurrentStepHint`: the hint of a step of the tutorial, empty for any other value. */
    function GetCurrentStepHint(): (r: string)
      reads this
      ensures 0 <= currentStep < |HINTS| ==> r == HINTS[currentStep]
      ensures r == "" <==> !(0 <= currentStep < |HINTS|)
    {
      match currentStep
      case 0 => "Tocca lo schermo per continuare"
      case 1 => "Usa i controlli di movimento"
      case 2 => "Premi il pulsante skill quando disponibile"
      case 3 => "Evita le celle rosse (trappole)"
      case 4 => "Inizia la tua avventura!"
      case _ => ""
    }

    /** `isStepCompleted`. */
    predicate IsStepCompleted(stepIndex: int)
      reads this
    {
      currentStep > stepIndex
    }

    /** While the tutorial runs, the current step is the one not yet completed and every earlier step is. */
    lemma ActiveStepIsFirstIncomplete(i: int)
      requires Valid() && isActive
      ensures 0 <= currentStep < |STEPS|
      ensures IsStepCompleted(i) <==> i < currentStep
    {
    }

    /** `reset`: step 0 and inactive. */
    method Reset()
      modifies this
      ensures Valid() && currentStep == 0 && !isActive
    {
      currentStep := 0;
      isActive := false;
    }
  }
}

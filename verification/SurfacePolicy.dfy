/** Which bus messages reach the human's phone (`bus_surface.py`). */
module SurfacePolicy {
  import opened Text

  /** A parsed message file; the string fields are the values the source's properties return. */
  datatype BusMessage = BusMessage(
    stem: string, id: string, kind: string, sender: string, to: string, priority: string,
    fromOrg: string, toOrg: string, raw: string)

  datatype Mode = Always | Configurable | Never
  datatype Severity = Info | Approval | Blocking
  datatype Rule = Rule(mode: Mode, severity: Severity, actions: seq<string>)
  datatype Decision = Decision(surface: bool, severity: Severity, interactive: bool, actions: seq<string>)

  /** The `surface:` block of platform.yaml, as far as the policy looks into it. */
  datatype Yaml = Flag(on: bool) | Mapping(entries: map<string, Yaml>) | Other

  type Overrides = map<string, Yaml>

  const SCR := "spec-change-request"

  const HIDDEN := Decision(false, Info, false, [])

  function DefaultPolicy(kind: string): Option<Rule>
  {
    if kind == SCR then Some(Rule(Always, Approval, ["approve", "reject", "details", "comment"]))
    else if kind in {"task-assignment", "info"} then Some(Rule(Never, Info, []))
    else if kind in {"review-request", "task-complete", "spec-change-approved", "spec-change-rejected",
                     "spec-change", "contract-change", "proposal"}
    then Some(Rule(Configurable, Info, []))
    else None
  }

  predicate ToHuman(to: string)
  {
    Lower(Strip(to)) in {"human", "humans", "user"}
  }

  predicate CrossOrg(m: BusMessage)
  {
    m.fromOrg != "" && m.toOrg != "" && Lower(m.fromOrg) != Lower(m.toOrg)
  }

  function ReplaceChar(s: string, a: char, b: char): string
  {
    if s == "" then "" else [if s[0] == a then b else s[0]] + ReplaceChar(s[1..], a, b)
  }

  /** The underscored spelling is tried first; a value that is not a boolean is no answer. */
  function OverrideFor(overrides: Overrides, key: string): Option<bool>
  {
    var under, dashed := ReplaceChar(key, '-', '_'), ReplaceChar(key, '_', '-');
    if under in overrides && overrides[under].Flag? then Some(overrides[under].on)
    else if dashed in overrides && overrides[dashed].Flag? then Some(overrides[dashed].on)
    else None
  }

  function Nested(overrides: Overrides, key: string): Overrides
  {
    if key in overrides && overrides[key].Mapping? then overrides[key].entries else map[]
  }

  function Decide(m: BusMessage, overrides: Overrides): Decision
  {
    if CrossOrg(m) then HIDDEN
    else if Lower(m.priority) == "urgent" then
      Decision(true, Blocking, m.to != "" && ToHuman(m.to), if ToHuman(m.to) then ["acknowledge"] else [])
    else match DefaultPolicy(m.kind)
      case Some(rule) =>
        var shown := Decision(true, rule.severity, rule.actions != [], rule.actions);
        (match rule.mode
         case Never => HIDDEN
         case Always => shown
         case Configurable =>
           var byAgent := OverrideFor(Nested(Nested(overrides, "by_agent"), m.sender), m.kind);
           if byAgent.Some? then (if byAgent.value then shown else HIDDEN)
           else if OverrideFor(overrides, m.kind) == Some(true) then shown
           else HIDDEN)
      case None =>
        if ToHuman(m.to) then Decision(true, Approval, true, ["acknowledge", "comment"])
        else if Lower(m.priority) == "high" then Decision(true, Approval, false, [])
        else HIDDEN
  }

  /** The messages whose card carries decision buttons. */
  predicate Interactive(m: BusMessage)
  {
    && !CrossOrg(m)
    && if Lower(m.priority) == "urgent" then ToHuman(m.to)
       else m.kind == SCR || (DefaultPolicy(m.kind).None? && ToHuman(m.to))
  }

  /**
   * Overrides never change whether a card is interactive, and an interactive
   * card is always surfaced with at least one button: restart recovery, which
   * reads the overrides of a later moment, classifies as the scan did.
   */
  lemma InteractiveUnderAllOverrides(m: BusMessage, overrides: Overrides)
    ensures Decide(m, overrides).interactive <==> Interactive(m)
    ensures Decide(m, overrides).interactive <==> Decide(m, overrides).actions != []
    ensures Interactive(m) ==> Decide(m, overrides).surface
  {
    if m.to == "" {
      assert Strip("") == "";
      assert !ToHuman(m.to);
    }
  }

  /** Overrides decide only the configurable types, and there the sender's own entry wins. */
  lemma OverridesReachOnlyConfigurable(m: BusMessage, a: Overrides, b: Overrides)
    ensures Decide(m, a) != Decide(m, b) ==>
      && !CrossOrg(m) && Lower(m.priority) != "urgent"
      && DefaultPolicy(m.kind).Some? && DefaultPolicy(m.kind).value.mode == Configurable
    ensures
      var mine := OverrideFor(Nested(Nested(a, "by_agent"), m.sender), m.kind);
      Decide(m, a) != Decide(m, map[]) <==>
        && !CrossOrg(m) && Lower(m.priority) != "urgent"
        && DefaultPolicy(m.kind).Some? && DefaultPolicy(m.kind).value.mode == Configurable
        && mine.GetOr(OverrideFor(a, m.kind) == Some(true))
  {
  }

  /**
   * The policy table promises that a message to a human is always surfaced.
   * The type rule is looked up first, so this holds under all overrides exactly
   * for messages that are local and urgent, proposals, or of no listed type.
   */
  lemma ToHumanSurfacesExactly(m: BusMessage, o: Overrides)
    requires ToHuman(m.to)
    ensures AlwaysShownToHuman(m) ==> Decide(m, o).surface
    ensures !AlwaysShownToHuman(m) ==> !Decide(m, map[]).surface
  {
    var none: Overrides := map[];
    if CrossOrg(m) {
      assert Decide(m, none) == HIDDEN;
    } else if Lower(m.priority) == "urgent" {
      assert Decide(m, o).surface;
    } else {
      match DefaultPolicy(m.kind)
      case None => assert Decide(m, o).surface;
      case Some(rule) =>
        if rule.mode == Configurable {
          NoOverridesSaysNothing(m);
          assert Decide(m, none) == HIDDEN;
        }
    }
  }

  predicate AlwaysShownToHuman(m: BusMessage)
  {
    !CrossOrg(m) && (Lower(m.priority) == "urgent" || m.kind == SCR || DefaultPolicy(m.kind).None?)
  }

  lemma NoOverridesSaysNothing(m: BusMessage)
    ensures OverrideFor(Nested(Nested(map[], "by_agent"), m.sender), m.kind).None?
    ensures OverrideFor(map[], m.kind).None?
  {
  }

  lemma InfoToHumanIsNotSurfaced(o: Overrides)
    ensures var m := BusMessage("s", "s", "info", "a", "human", "high", "", "", "");
            ToHuman(m.to) && !Decide(m, o).surface
  {
    assert Lower("high")[0] == 'h' && Lower("urgent")[0] == 'u';
    StripTrims("human");
    calc {
      Lower("human");
      "h" + Lower("uman");
      "hu" + Lower("man");
      "hum" + Lower("an");
      "huma" + Lower("n");
      "human" + Lower("");
      "human";
    }
  }
}

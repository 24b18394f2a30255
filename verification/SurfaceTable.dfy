/** The decision table of the surfacing policy, row by row, and how the platform's overrides are read. */
module SurfaceTable {
  import opened Text
  import opened SurfacePolicy

  predicate Foreign(m: BusMessage)
  {
    m.fromOrg != "" && m.toOrg != "" && Lower(m.fromOrg) != Lower(m.toOrg)
  }

  predicate ForAPerson(m: BusMessage)
  {
    Lower(Strip(m.to)) in {"human", "humans", "user"}
  }

  predicate LocalAndCalm(m: BusMessage)
  {
    !Foreign(m) && Lower(m.priority) != "urgent"
  }

  /** A message between two organisations is never shown here. */
  lemma ForeignIsHidden(m: BusMessage, o: Overrides)
    requires Foreign(m)
    ensures var d := Decide(m, o); !d.surface && !d.interactive && d.actions == []
  {
  }

  /** An urgent one always is, whatever its type; a person can acknowledge it. */
  lemma UrgentIsShown(m: BusMessage, o: Overrides)
    requires !Foreign(m) && Lower(m.priority) == "urgent"
    ensures var d := Decide(m, o);
            && d.surface && d.severity == Blocking && (d.interactive <==> ForAPerson(m))
            && d.actions == (if ForAPerson(m) then ["acknowledge"] else [])
  {
    assert Strip("") == "";
    hide Strip;
    assert Lower("") == "";
    assert "human" != "" && "humans" != "" && "user" != "";
  }

  /** A proposal asks for a decision; assignments and information stay between the agents. */
  lemma KindsWithAFixedRule(m: BusMessage, o: Overrides)
    requires LocalAndCalm(m)
    ensures m.kind == "spec-change-request" ==>
              Decide(m, o) == Decision(true, Approval, true, ["approve", "reject", "details", "comment"])
    ensures m.kind == "task-assignment" || m.kind == "info" ==> !Decide(m, o).surface && !Decide(m, o).interactive
  {
    KindsDiffer();
    hide Lower, Strip;
  }

  predicate ConfigurableKind(kind: string)
  {
    kind in {"review-request", "task-complete", "spec-change-approved", "spec-change-rejected", "spec-change",
             "contract-change", "proposal"}
  }

  lemma KindsDiffer()
    ensures !ConfigurableKind("spec-change-request")
    ensures !ConfigurableKind("task-assignment") && !ConfigurableKind("info")
    ensures "spec-change-request" != "task-assignment" && "spec-change-request" != "info"
  {
    assert |"spec-change-request"| == 19 && |"info"| == 4 && |"task-assignment"| == 15;
    assert |"review-request"| == 14 && |"task-complete"| == 13 && |"spec-change-approved"| == 20;
    assert |"spec-change-rejected"| == 20 && |"spec-change"| == 11 && |"contract-change"| == 15 && |"proposal"| == 8;
    assert "contract-change"[0] == 'c' && "task-assignment"[0] == 't';
  }

  /** A type the table does not list: a person may acknowledge or comment, a high priority is shown, the rest is not. */
  lemma OtherKinds(m: BusMessage, o: Overrides)
    requires LocalAndCalm(m) && !ConfigurableKind(m.kind)
    requires m.kind != "spec-change-request" && m.kind != "task-assignment" && m.kind != "info"
    ensures Decide(m, o) ==
            if ForAPerson(m) then Decision(true, Approval, true, ["acknowledge", "comment"])
            else if Lower(m.priority) == "high" then Decision(true, Approval, false, [])
            else Decision(false, Info, false, [])
  {
  }

  // ----- overrides ---------------------------------------------------------------------

  /** The same name with every `a` written as `b`. */
  predicate Respelled(name: string, kind: string, a: char, b: char)
  {
    |name| == |kind| && forall i :: 0 <= i < |kind| ==> name[i] == if kind[i] == a then b else kind[i]
  }

  lemma {:induction false} RespelledIsReplaced(name: string, kind: string, a: char, b: char)
    requires Respelled(name, kind, a, b)
    ensures ReplaceChar(kind, a, b) == name
  {
    if kind != "" {
      RespelledIsReplaced(name[1..], kind[1..], a, b);
      assert name == [name[0]] + name[1..];
    }
  }

  /** The entries switch the type: under the underscored name, or under the dashed one if that is no switch. */
  predicate Switches(entries: Overrides, under: string, dashed: string, on: bool)
  {
    || (under in entries && entries[under] == Flag(on))
    || (!(under in entries && entries[under].Flag?) && dashed in entries && entries[dashed] == Flag(on))
  }

  /** What the overrides say about one agent. */
  function OwnEntries(o: Overrides, agent: string): Overrides
  {
    if "by_agent" in o && o["by_agent"].Mapping? && agent in o["by_agent"].entries
       && o["by_agent"].entries[agent].Mapping?
    then o["by_agent"].entries[agent].entries else map[]
  }

  lemma SwitchedExactly(entries: Overrides, kind: string, under: string, dashed: string, on: bool)
    requires Respelled(under, kind, '-', '_') && Respelled(dashed, kind, '_', '-')
    ensures OverrideFor(entries, kind) == Some(on) <==> Switches(entries, under, dashed, on)
  {
    RespelledIsReplaced(under, kind, '-', '_');
    RespelledIsReplaced(dashed, kind, '_', '-');
    hide ReplaceChar, Respelled;
  }

  lemma ConfigurableRule(kind: string)
    requires ConfigurableKind(kind)
    ensures DefaultPolicy(kind) == Some(Rule(Configurable, Info, []))
  {
    KindsDiffer();
  }

  lemma OwnEntriesAreNested(o: Overrides, agent: string)
    ensures OwnEntries(o, agent) == Nested(Nested(o, "by_agent"), agent)
  {
  }

  lemma ConfigurableIsAsked(m: BusMessage, o: Overrides)
    requires LocalAndCalm(m) && DefaultPolicy(m.kind) == Some(Rule(Configurable, Info, []))
    ensures var d := Decide(m, o);
            var own := OverrideFor(Nested(Nested(o, "by_agent"), m.sender), m.kind);
            && (d.surface <==> own == Some(true) || (own != Some(false) && OverrideFor(o, m.kind) == Some(true)))
            && !d.interactive && d.actions == [] && d.severity == Info
  {
    hide Lower, OverrideFor, Nested, DefaultPolicy, ToHuman;
  }

  /**
   * The remaining types are shown, without buttons, exactly when the sender's own
   * entry switches them on, or leaves them open and the general one switches them on.
   */
  lemma ConfigurableFollowsOverrides(m: BusMessage, o: Overrides, under: string, dashed: string)
    requires LocalAndCalm(m) && ConfigurableKind(m.kind)
    requires Respelled(under, m.kind, '-', '_') && Respelled(dashed, m.kind, '_', '-')
    ensures var d := Decide(m, o);
            var own := OwnEntries(o, m.sender);
            && (d.surface <==>
                  || Switches(own, under, dashed, true)
                  || (!Switches(own, under, dashed, false) && Switches(o, under, dashed, true)))
            && !d.interactive && d.actions == [] && d.severity == Info
  {
    hide Decide, LocalAndCalm, Respelled, Switches, OverrideFor, Nested, OwnEntries, DefaultPolicy, ConfigurableKind;
    var own := OwnEntries(o, m.sender);
    ConfigurableRule(m.kind);
    SwitchedExactly(own, m.kind, under, dashed, true);
    SwitchedExactly(own, m.kind, under, dashed, false);
    SwitchedExactly(o, m.kind, under, dashed, true);
    OwnEntriesAreNested(o, m.sender);
    ConfigurableIsAsked(m, o);
  }
}

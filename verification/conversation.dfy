/**
 The admin conversation of comandos/recuperacao.py as a transition function.

 A configuration is the conversation state and the draft step being built
 (`recovery_context`). An input is the `/recuperacao` command, a button press
 (its callback data) or a chat message. `Next` gives the configuration after
 the handler the conversation routes the input to, what it does to the step
 store, and the callback data of the buttons its reply offers; None where the
 handler raises. `check` chooses the discount step's range check: the
 program's (`AsWritten`, which lets NaN through) or the intended one.
 */
module Conversation {
  import opened Wrappers
  import opened Text
  import opened PyFloat
  import opened Recovery
  import opened DialogRules

  datatype Phase = Menu | Name | Content | Percent | UnitChoice | Delay | Confirm | View | Delete | Ended

  /** The state constants `range(9)` and `ConversationHandler.END` (comandos/recuperacao.py:10). */
  function Code(p: Phase): (c: int)
    ensures -1 <= c < 9
    ensures c == -1 <==> p == Ended
  {
    match p
    case Menu => 0
    case Name => 1
    case Content => 2
    case Percent => 3
    case UnitChoice => 4
    case Delay => 5
    case Confirm => 6
    case View => 7
    case Delete => 8
    case Ended => -1
  }

  /** Distinct states have distinct codes. */
  lemma CodeInjective(p: Phase, q: Phase)
    ensures Code(p) == Code(q) ==> p == q
  {
  }

  /** The step being built; `unit` is the stored unit word (`tempo_unidade`). */
  datatype Draft = Draft(
    name: Option<string>,
    media: Option<Media>,
    text: Option<string>,
    discount: Option<Float>,
    delay: Option<int>,
    unit: Option<string>)

  /** The draft set up by "criar_recuperacao": every entry None, no unit entry. */
  const EmptyDraft: Draft := Draft(None, None, None, None, None, None)

  datatype Conv = Conv(phase: Phase, draft: Draft)

  /** The `/recuperacao` command (with the outcome of the command and admin checks), a button press, a message. */
  datatype Input = Open(commandOk: bool, isAdmin: bool) | Press(data: string) | Say(msg: Msg)

  /** What a handler does to the step store. */
  datatype Effect = NoEffect | CreateStep(draft: Draft) | DeleteStep(id: int)

  datatype Reply = Reply(conv: Conv, effect: Effect, offered: seq<string>)

  const CancelOnly: seq<string> := [CancelData]
  const UnitCallbacks: seq<string> := [UnitCallback(Minutes), UnitCallback(Hours), UnitCallback(Days), CancelData]
  const ConfirmCallbacks: seq<string> := ["confirmar", CancelData]
  const BackCallbacks: seq<string> := ["voltar_menu"]

  /** The delete buttons, one per stored step, in list order (comandos/recuperacao.py:109-122). */
  function DeleteCallbacks(steps: seq<Step>): (r: seq<string>)
    ensures |r| == |steps| + 1 && r[|steps|] == CancelData
    ensures forall i :: 0 <= i < |steps| ==> r[i] == DeleteCallback(steps[i].id)
  {
    seq(|steps|, i requires 0 <= i < |steps| => DeleteCallback(steps[i].id)) + [CancelData]
  }

  /** Leaves the conversation where it is: no handler takes the input, or it returns None. */
  function Stay(c: Conv): Reply {
    Reply(c, NoEffect, [])
  }

  /** A refused input: the handler asks again, offering only the cancel button. */
  function Retry(c: Conv): Reply {
    Reply(c, NoEffect, CancelOnly)
  }

  function End(c: Conv): Reply {
    Reply(Conv(Ended, c.draft), NoEffect, [])
  }

  /** The entry point (comandos/recuperacao.py:17-49). */
  function OnEntry(c: Conv, input: Input, steps: seq<Step>): (r: Reply)
    ensures r == Stay(c) || r == End(c) || r == Reply(Conv(Menu, c.draft), NoEffect, MenuCallbacks(|steps|))
  {
    if !input.Open? then Stay(c)
    else if input.commandOk && input.isAdmin then Reply(Conv(Menu, c.draft), NoEffect, MenuCallbacks(|steps|))
    else End(c)
  }

  /** The menu buttons (comandos/recuperacao.py:51-130); other data makes the handler return None. */
  function OnMenu(c: Conv, input: Input, steps: seq<Step>): (r: Reply)
    ensures r.effect == NoEffect
    ensures r == Stay(c) || r == End(c) || r == Reply(Conv(Name, EmptyDraft), NoEffect, CancelOnly)
      || r == Reply(Conv(View, c.draft), NoEffect, BackCallbacks) || r == Reply(Conv(Delete, c.draft), NoEffect, DeleteCallbacks(steps))
  {
    if !input.Press? then Stay(c)
    else if input.data == CancelData then End(c)
    else if input.data == "criar_recuperacao" then Reply(Conv(Name, EmptyDraft), NoEffect, CancelOnly)
    else if input.data == "ver_recuperacoes" then Reply(Conv(View, c.draft), NoEffect, BackCallbacks)
    else if input.data == "remover_recuperacao" then
      if |steps| == 0 then End(c) else Reply(Conv(Delete, c.draft), NoEffect, DeleteCallbacks(steps))
    else Stay(c)
  }

  /** The name message (comandos/recuperacao.py:132-144). */
  function OnName(c: Conv, m: Msg): (r: Reply)
    ensures r == Retry(c) || (r.conv.phase == Content && r.effect == NoEffect && r.offered == CancelOnly)
  {
    if !Truthy(m.text) then Retry(c)
    else Reply(Conv(Content, c.draft.(name := Some(Strip(m.text.value)))), NoEffect, CancelOnly)
  }

  /** The content message (comandos/recuperacao.py:146-187). */
  function OnContent(c: Conv, m: Msg): (r: Reply)
    ensures r == Retry(c) || (r.conv.phase == Percent && r.effect == NoEffect && r.offered == CancelOnly)
  {
    match Capture(m)
    case None => Retry(c)
    case Some(cap) => Reply(Conv(Percent, c.draft.(media := cap.media, text := cap.text)), NoEffect, CancelOnly)
  }

  /** The discount message (comandos/recuperacao.py:194-227). */
  function OnPercent(c: Conv, m: Msg, check: RangeCheck): (r: Reply)
    ensures r == Retry(c) || (r.conv.phase == UnitChoice && r.effect == NoEffect && r.offered == UnitCallbacks)
    ensures r != Retry(c) ==>
      Truthy(m.text) && r.conv.draft == c.draft.(discount := DiscountInput(m.text.value, check))
  {
    if !Truthy(m.text) then Retry(c)
    else match DiscountInput(m.text.value, check)
      case None => Retry(c)
      case Some(p) => Reply(Conv(UnitChoice, c.draft.(discount := Some(p))), NoEffect, UnitCallbacks)
  }

  /** The unit buttons (comandos/recuperacao.py:229-248); data without '_' makes the split raise. */
  function OnUnit(c: Conv, data: string): (r: Option<Reply>)
    ensures r.Some? ==> r.value == End(c) || (r.value.conv.phase == Delay && r.value.effect == NoEffect && r.value.offered == CancelOnly)
  {
    if data == CancelData then Some(End(c))
    else match UnitFromCallback(data)
      case None => None
      case Some(u) => Some(Reply(Conv(Delay, c.draft.(unit := Some(u))), NoEffect, CancelOnly))
  }

  /** The delay message (comandos/recuperacao.py:250-295); an unknown or missing unit makes the conversion raise. */
  function OnDelay(c: Conv, m: Msg): (r: Option<Reply>)
    ensures r.Some? ==> r.value == Retry(c) || (r.value.conv.phase == Confirm && r.value.effect == NoEffect && r.value.offered == ConfirmCallbacks)
    ensures r.Some? && r.value != Retry(c) ==>
      r.value.conv.draft == c.draft.(delay := r.value.conv.draft.delay) && r.value.conv.draft.delay.Some? && r.value.conv.draft.delay.value > 0
  {
    if !Truthy(m.text) then Some(Retry(c))
    else match ParseInt(m.text.value)
      case None => Some(Retry(c))
      case Some(t) =>
        if t <= 0 then Some(Retry(c))
        else if c.draft.unit.None? || ParseUnit(c.draft.unit.value).None? then None
        else
          var minutes := ToMinutes(t, ParseUnit(c.draft.unit.value).value);
          Some(Reply(Conv(Confirm, c.draft.(delay := Some(minutes))), NoEffect, ConfirmCallbacks))
  }

  /** The confirmation buttons (comandos/recuperacao.py:297-326). */
  function OnConfirm(c: Conv, data: string): Reply {
    if data == CancelData then End(c)
    else if data == "confirmar" then Reply(Conv(Ended, c.draft), CreateStep(c.draft), [])
    else Stay(c)
  }

  /** The listing's back button (comandos/recuperacao.py:328-354). */
  function OnView(c: Conv, data: string, steps: seq<Step>): Reply {
    if data == "voltar_menu" then Reply(Conv(Menu, c.draft), NoEffect, MenuCallbacks(|steps|)) else Stay(c)
  }

  /** The delete buttons (comandos/recuperacao.py:356-374): a bad id is caught and still ends the conversation. */
  function OnDelete(c: Conv, data: string): Reply {
    if data == CancelData then End(c)
    else match ParseDeleteId(data)
      case None => End(c)
      case Some(id) => Reply(Conv(Ended, c.draft), DeleteStep(id), [])
  }

  /**
   The conversation's reaction to one input (the routing of
   comandos/recuperacao.py:377-391); `steps` is what the step store lists
   for the bot, its length being the menu's count. In the message states a
   press goes to the cancel handler and a command (the `/recuperacao`
   command among them) is filtered out by `~filters.COMMAND`.
   */
  function Next(c: Conv, input: Input, steps: seq<Step>, check: RangeCheck): Option<Reply> {
    match c.phase
    case Ended => Some(OnEntry(c, input, steps))
    case Menu => Some(OnMenu(c, input, steps))
    case Name =>
      (match input case Say(m) => Some(if m.command then Stay(c) else OnName(c, m)) case Press(_) => Some(End(c)) case Open(_, _) => Some(Stay(c)))
    case Content =>
      (match input case Say(m) => Some(if m.command then Stay(c) else OnContent(c, m)) case Press(_) => Some(End(c)) case Open(_, _) => Some(Stay(c)))
    case Percent =>
      (match input case Say(m) => Some(if m.command then Stay(c) else OnPercent(c, m, check)) case Press(_) => Some(End(c)) case Open(_, _) => Some(Stay(c)))
    case UnitChoice => if input.Press? then OnUnit(c, input.data) else Some(Stay(c))
    case Delay =>
      (match input case Say(m) => (if m.command then Some(Stay(c)) else OnDelay(c, m)) case Press(_) => Some(End(c)) case Open(_, _) => Some(Stay(c)))
    case Confirm => if input.Press? then Some(OnConfirm(c, input.data)) else Some(Stay(c))
    case View => if input.Press? then Some(OnView(c, input.data, steps)) else Some(Stay(c))
    case Delete => if input.Press? then Some(OnDelete(c, input.data)) else Some(Stay(c))
  }

  /**
   The reply once a raising handler is accounted for: the exception goes to
   the bot's error handlers and the conversation stays where it was.
   */
  function Handle(c: Conv, input: Input, steps: seq<Step>, check: RangeCheck): (r: Reply)
    ensures Next(c, input, steps, check).None? ==> r == Stay(c)
  {
    match Next(c, input, steps, check)
    case None => Stay(c)
    case Some(r) => r
  }

  /** Feeds a list of inputs: the final configuration and the store effects, in order. */
  function RunInputs(c: Conv, inputs: seq<Input>, steps: seq<Step>, check: RangeCheck): (Conv, seq<Effect>)
    decreases |inputs|
  {
    if |inputs| == 0 then (c, [])
    else
      var r := Handle(c, inputs[0], steps, check);
      var rest := RunInputs(r.conv, inputs[1..], steps, check);
      (rest.0, (if r.effect.NoEffect? then [] else [r.effect]) + rest.1)
  }
}

module ConversationProperties {
  import opened Wrappers
  import opened Text
  import opened PyFloat
  import opened Recovery
  import opened DialogRules
  import opened Conversation

  // ---------------------------------------------------------------- refused input

  /** The message a creation state accepts, stated per state from the handlers' checks. */
  predicate Accepts(p: Phase, m: Msg, check: RangeCheck) {
    && !m.command
    && match p
       case Name => Truthy(m.text)
       case Content => Capture(m).Some?
       case Percent => Truthy(m.text) && DiscountInput(m.text.value, check).Some?
       case Delay => Truthy(m.text) && ParseInt(m.text.value).Some? && ParseInt(m.text.value).value > 0
       case _ => false
  }

  /** The next state of the creation chain. */
  function Successor(p: Phase): Phase {
    match p
    case Name => Content
    case Content => Percent
    case Percent => UnitChoice
    case UnitChoice => Delay
    case Delay => Confirm
    case _ => Ended
  }

  /** The draft entries a creation state may write. */
  predicate ChangesOnlyOwnEntry(p: Phase, d: Draft, e: Draft) {
    match p
    case Name => e == d.(name := e.name)
    case Content => e == d.(media := e.media, text := e.text)
    case Percent => e == d.(discount := e.discount)
    case UnitChoice => e == d.(unit := e.unit)
    case Delay => e == d.(delay := e.delay)
    case _ => e == d
  }

  /** The outcomes of a message in a message state, as `MessageStepIff` states them. */
  predicate MessageOutcome(c: Conv, m: Msg, steps: seq<Step>, check: RangeCheck)
    requires c.phase in {Name, Content, Percent, Delay}
  {
    var next := Next(c, Say(m), steps, check);
    && (m.command ==> next == Some(Reply(c, NoEffect, [])))
    && (!m.command ==> (next == Some(Reply(c, NoEffect, [CancelData])) <==> !Accepts(c.phase, m, check)))
    && (Accepts(c.phase, m, check) && next.Some? ==>
          && next.value.conv.phase == Successor(c.phase)
          && next.value.effect == NoEffect
          && ChangesOnlyOwnEntry(c.phase, c.draft, next.value.conv.draft))
    && (next.None? <==>
          c.phase == Delay && Accepts(Delay, m, check) && (c.draft.unit.None? || ParseUnit(c.draft.unit.value).None?))
  }

  lemma NameOutcome(c: Conv, m: Msg, steps: seq<Step>, check: RangeCheck)
    requires c.phase == Name
    ensures MessageOutcome(c, m, steps, check)
  {
    if !m.command {
      SayInName(c, m, steps, check);
    }
  }

  lemma ContentOutcome(c: Conv, m: Msg, steps: seq<Step>, check: RangeCheck)
    requires c.phase == Content
    ensures MessageOutcome(c, m, steps, check)
  {
    if !m.command {
      SayInContent(c, m, steps, check);
    }
  }

  lemma PercentOutcome(c: Conv, m: Msg, steps: seq<Step>, check: RangeCheck)
    requires c.phase == Percent
    ensures MessageOutcome(c, m, steps, check)
  {
    if !m.command {
      SayInPercent(c, m, steps, check);
    }
  }

  lemma DelayOutcome(c: Conv, m: Msg, steps: seq<Step>, check: RangeCheck)
    requires c.phase == Delay
    ensures MessageOutcome(c, m, steps, check)
  {
    if !m.command {
      SayInDelay(c, m, steps, check);
    }
  }

  /**
   In the message states a command is ignored, and any other message is
   either refused, leaving the state and the draft as they were, or
   accepted, moving one step along the chain and writing only that state's
   entry of the draft.
   */
  lemma MessageStepIff(c: Conv, m: Msg, steps: seq<Step>, check: RangeCheck)
    requires c.phase in {Name, Content, Percent, Delay}
    ensures m.command ==> Next(c, Say(m), steps, check) == Some(Stay(c))
    ensures !m.command ==> (Next(c, Say(m), steps, check) == Some(Retry(c)) <==> !Accepts(c.phase, m, check))
    ensures Accepts(c.phase, m, check) && Next(c, Say(m), steps, check).Some? ==>
      var r := Next(c, Say(m), steps, check).value;
      && r.conv.phase == Successor(c.phase)
      && r.effect == NoEffect
      && ChangesOnlyOwnEntry(c.phase, c.draft, r.conv.draft)
    ensures Next(c, Say(m), steps, check).None? <==>
      c.phase == Delay && Accepts(Delay, m, check) && (c.draft.unit.None? || ParseUnit(c.draft.unit.value).None?)
  {
    match c.phase {
      case Name => NameOutcome(c, m, steps, check);
      case Content => ContentOutcome(c, m, steps, check);
      case Percent => PercentOutcome(c, m, steps, check);
      case Delay => DelayOutcome(c, m, steps, check);
    }
  }

  /**
   An accepted discount is the number typed, admissible under the check
   (in [0, 100), or NaN as written); an accepted delay is a positive number
   of minutes.
   */
  lemma AcceptedValuesInRange(c: Conv, m: Msg, steps: seq<Step>, check: RangeCheck)
    requires c.phase in {Percent, Delay}
    requires Next(c, Say(m), steps, check).Some?
    ensures var e := Next(c, Say(m), steps, check).value.conv.draft;
      && (c.phase == Percent && Accepts(Percent, m, check) ==>
            e.discount == DiscountInput(m.text.value, check) && Admissible(check, e.discount.value))
      && (c.phase == Delay && Accepts(Delay, m, check) ==> e.delay.Some? && e.delay.value >= ParseInt(m.text.value).value > 0)
  {
    if !m.command {
      match c.phase {
        case Percent => SayInPercent(c, m, steps, check);
        case Delay => SayInDelay(c, m, steps, check);
      }
    }
  }

  /**
   The text "nan" in the discount state: the program stores NaN and asks for
   the unit; the corrected check asks for the discount again.
   */
  lemma NanDiscountStep(c: Conv, m: Msg, steps: seq<Step>)
    requires c.phase == Percent
    requires m.text == Some("nan") && !m.command
    ensures Next(c, Say(m), steps, AsWritten)
      == Some(Reply(Conv(UnitChoice, c.draft.(discount := Some(NaN))), NoEffect, UnitCallbacks))
    ensures Next(c, Say(m), steps, Corrected) == Some(Retry(c))
  {
    NanDiscountInput();
    SayInPercent(c, m, steps, AsWritten);
    SayInPercent(c, m, steps, Corrected);
  }

  // ---------------------------------------------------------------- store effects

  /** The step store is written only by the confirm and delete buttons. */
  lemma EffectsOnlyFromButtons(c: Conv, input: Input, steps: seq<Step>, check: RangeCheck)
    requires Next(c, input, steps, check).Some?
    ensures var r := Next(c, input, steps, check).value;
      && (r.effect.CreateStep? <==> c.phase == Confirm && input == Press("confirmar"))
      && (r.effect.CreateStep? ==> r.effect.draft == c.draft)
      && (r.effect.DeleteStep? ==> c.phase == Delete && input.Press? && ParseDeleteId(input.data) == Some(r.effect.id))
  {
    match c.phase {
      case Ended =>
      case Menu =>
      case Name =>
      case Content =>
      case Percent =>
      case UnitChoice =>
      case Delay =>
      case Confirm =>
      case View =>
      case Delete =>
    }
  }

  /** What the creation chain guarantees of the draft in each state. */
  predicate DraftInvariant(c: Conv, check: RangeCheck) {
    var d := c.draft;
    && (c.phase in {Content, Percent, UnitChoice, Delay, Confirm} ==> d.name.Some?)
    && (c.phase in {UnitChoice, Delay, Confirm} ==> d.discount.Some? && Admissible(check, d.discount.value))
    && (c.phase == Confirm ==> d.delay.Some? && d.delay.value > 0)
  }

  /**
   A draft that may be stored: named (the stripped name may be empty), with
   an admissible discount and a positive delay.
   */
  predicate ValidDraft(d: Draft, check: RangeCheck) {
    d.name.Some? && d.discount.Some? && Admissible(check, d.discount.value) && d.delay.Some? && d.delay.value > 0
  }

  lemma PercentKeepsInvariant(c: Conv, input: Input, steps: seq<Step>, check: RangeCheck)
    requires c.phase == Percent && DraftInvariant(c, check)
    ensures DraftInvariant(Next(c, input, steps, check).value.conv, check)
    ensures Next(c, input, steps, check).value.effect == NoEffect
  {
    if input.Say? && !input.msg.command {
      SayInPercent(c, input.msg, steps, check);
    }
  }

  lemma DelayKeepsInvariant(c: Conv, input: Input, steps: seq<Step>, check: RangeCheck)
    requires c.phase == Delay && DraftInvariant(c, check)
    requires Next(c, input, steps, check).Some?
    ensures DraftInvariant(Next(c, input, steps, check).value.conv, check)
    ensures Next(c, input, steps, check).value.effect == NoEffect
  {
    if input.Say? && !input.msg.command {
      SayInDelay(c, input.msg, steps, check);
    }
  }

  /** Every transition keeps the invariant, and a stored draft is always valid. */
  lemma NextKeepsInvariant(c: Conv, input: Input, steps: seq<Step>, check: RangeCheck)
    requires DraftInvariant(c, check)
    requires Next(c, input, steps, check).Some?
    ensures DraftInvariant(Next(c, input, steps, check).value.conv, check)
    ensures var e := Next(c, input, steps, check).value.effect; e.CreateStep? ==> ValidDraft(e.draft, check)
  {
    match c.phase {
      case Ended =>
      case Menu =>
      case Name =>
      case Content =>
      case Percent => PercentKeepsInvariant(c, input, steps, check);
      case UnitChoice =>
      case Delay => DelayKeepsInvariant(c, input, steps, check);
      case Confirm =>
      case View =>
      case Delete =>
    }
  }

  /** Every stored step in a list of effects is valid. */
  predicate AllStoredValid(effects: seq<Effect>, check: RangeCheck) {
    forall i :: 0 <= i < |effects| && effects[i].CreateStep? ==> ValidDraft(effects[i].draft, check)
  }

  lemma StoredValidAppend(head: seq<Effect>, tail: seq<Effect>, check: RangeCheck)
    requires AllStoredValid(head, check) && AllStoredValid(tail, check)
    ensures AllStoredValid(head + tail, check)
  {
    var all := head + tail;
    forall i | 0 <= i < |all| && all[i].CreateStep?
      ensures ValidDraft(all[i].draft, check)
    {
      if i >= |head| {
        assert all[i] == tail[i - |head|];
      }
    }
  }

  /** `NextKeepsInvariant` once a raising handler is accounted for. */
  lemma HandleKeepsInvariant(c: Conv, input: Input, steps: seq<Step>, check: RangeCheck)
    requires DraftInvariant(c, check)
    ensures DraftInvariant(Handle(c, input, steps, check).conv, check)
    ensures AllStoredValid(if Handle(c, input, steps, check).effect.NoEffect? then [] else [Handle(c, input, steps, check).effect], check)
  {
    if Next(c, input, steps, check).Some? {
      NextKeepsInvariant(c, input, steps, check);
    }
  }

  /**
   Whatever the admin types, and whichever handlers raise on the way, every
   step the dialog stores has a name, an admissible discount and a positive
   delay.
   */
  lemma {:induction false} StoredStepsValid(c: Conv, inputs: seq<Input>, steps: seq<Step>, check: RangeCheck)
    requires DraftInvariant(c, check)
    ensures AllStoredValid(RunInputs(c, inputs, steps, check).1, check)
    decreases |inputs|
  {
    if |inputs| > 0 {
      var r := Handle(c, inputs[0], steps, check);
      HandleKeepsInvariant(c, inputs[0], steps, check);
      StoredStepsValid(r.conv, inputs[1..], steps, check);
      StoredValidAppend(if r.effect.NoEffect? then [] else [r.effect], RunInputs(r.conv, inputs[1..], steps, check).1, check);
    }
  }

  /** With the corrected check every stored discount is a number in [0, 100). */
  lemma CorrectedStoresInRange(c: Conv, inputs: seq<Input>, steps: seq<Step>)
    requires DraftInvariant(c, Corrected)
    ensures var effects := RunInputs(c, inputs, steps, Corrected).1;
      forall e :: e in effects && e.CreateStep? ==>
        e.draft.discount.Some? && e.draft.discount.value.Finite? && 0.0 <= e.draft.discount.value.Value() < 100.0
  {
    var effects := RunInputs(c, inputs, steps, Corrected).1;
    StoredStepsValid(c, inputs, steps, Corrected);
    forall e | e in effects && e.CreateStep?
      ensures e.draft.discount.Some? && e.draft.discount.value.Finite?
      ensures 0.0 <= e.draft.discount.value.Value() < 100.0
    {
      var i :| 0 <= i < |effects| && effects[i] == e;
      assert ValidDraft(effects[i].draft, Corrected);
    }
  }

  // ---------------------------------------------------------------- buttons

  /** Every button a reply offers is answered by the state it leads to, which then moves on. */
  predicate Answered(r: Reply, steps: seq<Step>, check: RangeCheck) {
    forall i :: 0 <= i < |r.offered| ==>
      var next := Next(r.conv, Press(r.offered[i]), steps, check);
      next.Some? && next.value.conv.phase != r.conv.phase
  }

  /** Every menu item's button leaves the menu. */
  lemma MenuItemLeaves(d: Draft, item: MenuItem, steps: seq<Step>)
    ensures OnMenu(Conv(Menu, d), Press(MenuData(item)), steps).conv.phase != Menu
  {
  }

  lemma MenuAnswered(d: Draft, steps: seq<Step>, check: RangeCheck)
    ensures Answered(Reply(Conv(Menu, d), NoEffect, MenuCallbacks(|steps|)), steps, check)
  {
    var offered := MenuCallbacks(|steps|);
    forall i | 0 <= i < |offered|
      ensures Next(Conv(Menu, d), Press(offered[i]), steps, check).Some?
      ensures Next(Conv(Menu, d), Press(offered[i]), steps, check).value.conv.phase != Menu
    {
      MenuItemLeaves(d, MenuItems(|steps|)[i], steps);
      PressInMenu(Conv(Menu, d), offered[i], steps, check);
    }
  }

  lemma CancelAnswered(c: Conv, steps: seq<Step>, check: RangeCheck)
    requires c.phase in {Name, Content, Percent, Delay}
    ensures Answered(Reply(c, NoEffect, CancelOnly), steps, check)
  {
  }

  /** A unit button records its unit word and asks for the delay. */
  lemma UnitButtonRecordsUnit(c: Conv, u: TimeUnit, steps: seq<Step>, check: RangeCheck)
    requires c.phase == UnitChoice
    ensures Next(c, Press(UnitCallback(u)), steps, check)
      == Some(Reply(Conv(Delay, c.draft.(unit := Some(UnitWord(u)))), NoEffect, CancelOnly))
  {
    var r := Reply(Conv(Delay, c.draft.(unit := Some(UnitWord(u)))), NoEffect, CancelOnly);
    assert OnUnit(c, UnitCallback(u)) == Some(r) by {
      UnitCallbackRoundTrip(u);
      assert UnitCallback(u)[0] != CancelData[0];
    }
    PressInUnit(c, UnitCallback(u), steps, check);
  }

  lemma UnitsAnswered(c: Conv, steps: seq<Step>, check: RangeCheck)
    requires c.phase == UnitChoice
    ensures Answered(Reply(c, NoEffect, UnitCallbacks), steps, check)
  {
    var units := [Minutes, Hours, Days];
    forall i | 0 <= i < |UnitCallbacks|
      ensures Next(c, Press(UnitCallbacks[i]), steps, check).Some?
      ensures Next(c, Press(UnitCallbacks[i]), steps, check).value.conv.phase != c.phase
    {
      if i < 3 {
        assert UnitCallbacks[i] == UnitCallback(units[i]);
        UnitButtonRecordsUnit(c, units[i], steps, check);
      }
    }
  }

  lemma ConfirmAnswered(c: Conv, steps: seq<Step>, check: RangeCheck)
    requires c.phase == Confirm
    ensures Answered(Reply(c, NoEffect, ConfirmCallbacks), steps, check)
  {
  }

  lemma BackAnswered(c: Conv, steps: seq<Step>, check: RangeCheck)
    requires c.phase == View
    ensures Answered(Reply(c, NoEffect, BackCallbacks), steps, check)
  {
  }

  /** The delete button of step i deletes exactly step i's id. */
  lemma DeleteButtonDeletesItsStep(d: Draft, steps: seq<Step>, i: nat, check: RangeCheck)
    requires i < |steps|
    ensures Next(Conv(Delete, d), Press(DeleteCallbacks(steps)[i]), steps, check)
      == Some(Reply(Conv(Ended, d), DeleteStep(steps[i].id), []))
  {
    var data := DeleteCallbacks(steps)[i];
    assert data == DeleteCallback(steps[i].id);
    assert OnDelete(Conv(Delete, d), data) == Reply(Conv(Ended, d), DeleteStep(steps[i].id), []) by {
      DeleteCallbackRoundTrip(steps[i].id);
      assert data[0] != CancelData[0];
    }
    PressInDelete(Conv(Delete, d), data, steps, check);
  }

  lemma DeleteAnswered(d: Draft, steps: seq<Step>, check: RangeCheck)
    ensures Answered(Reply(Conv(Delete, d), NoEffect, DeleteCallbacks(steps)), steps, check)
  {
    forall i | 0 <= i < |steps|
      ensures Next(Conv(Delete, d), Press(DeleteCallbacks(steps)[i]), steps, check).Some?
    {
      DeleteButtonDeletesItsStep(d, steps, i, check);
    }
  }

  /** The buttons a reply can offer, by the state it leads to. */
  predicate OffersFor(r: Reply, steps: seq<Step>) {
    || r.offered == []
    || (r.conv.phase == Menu && r.offered == MenuCallbacks(|steps|))
    || (r.conv.phase == Delete && r.offered == DeleteCallbacks(steps))
    || (r.conv.phase == UnitChoice && r.offered == UnitCallbacks)
    || (r.conv.phase in {Name, Content, Percent, Delay} && r.offered == CancelOnly)
    || (r.conv.phase == Confirm && r.offered == ConfirmCallbacks)
    || (r.conv.phase == View && r.offered == BackCallbacks)
  }

  lemma NextOffers(c: Conv, input: Input, steps: seq<Step>, check: RangeCheck)
    requires Next(c, input, steps, check).Some?
    ensures OffersFor(Next(c, input, steps, check).value, steps)
  {
    match c.phase {
      case Ended =>
      case Menu =>
      case Name =>
      case Content =>
      case Percent =>
      case UnitChoice =>
      case Delay =>
      case Confirm =>
      case View =>
      case Delete =>
    }
  }

  /** No reply offers a button that its next state would ignore or fail on. */
  lemma OfferedButtonsAnswered(c: Conv, input: Input, steps: seq<Step>, check: RangeCheck)
    requires Next(c, input, steps, check).Some?
    ensures Answered(Next(c, input, steps, check).value, steps, check)
  {
    var r := Next(c, input, steps, check).value;
    NextOffers(c, input, steps, check);
    if r.offered != [] {
      match r.conv.phase {
        case Menu => MenuAnswered(r.conv.draft, steps, check);
        case Delete => DeleteAnswered(r.conv.draft, steps, check);
        case UnitChoice => UnitsAnswered(r.conv, steps, check);
        case Confirm => ConfirmAnswered(r.conv, steps, check);
        case View => BackAnswered(r.conv, steps, check);
        case Name => CancelAnswered(r.conv, steps, check);
        case Content => CancelAnswered(r.conv, steps, check);
        case Percent => CancelAnswered(r.conv, steps, check);
        case Delay => CancelAnswered(r.conv, steps, check);
        case Ended =>
      }
    }
  }

  // ---------------------------------------------------------------- the whole dialog

  /** The inputs of the creation dialog, from the command to the confirm button. */
  function CreationInputs(name: Msg, content: Msg, percent: Msg, u: TimeUnit, delay: Msg): seq<Input> {
    [Open(true, true), Press("criar_recuperacao"), Say(name), Say(content), Say(percent),
     Press(UnitCallback(u)), Say(delay), Press("confirmar")]
  }

  /** The draft the creation dialog stores. */
  function CreatedDraft(name: Msg, content: Msg, p: Float, u: TimeUnit, t: int): Draft
    requires Truthy(name.text) && Capture(content).Some?
  {
    var cap := Capture(content).value;
    Draft(Some(Strip(name.text.value)), cap.media, cap.text, Some(p), Some(t * MinutesPer(u)), Some(UnitWord(u)))
  }

  // Routing of a message in each message state, kept apart from the handlers' own reasoning.
  lemma SayInName(c: Conv, m: Msg, steps: seq<Step>, check: RangeCheck)
    requires c.phase == Name && !m.command
    ensures Next(c, Say(m), steps, check) == Some(OnName(c, m))
  {
  }

  lemma SayInContent(c: Conv, m: Msg, steps: seq<Step>, check: RangeCheck)
    requires c.phase == Content && !m.command
    ensures Next(c, Say(m), steps, check) == Some(OnContent(c, m))
  {
  }

  lemma SayInPercent(c: Conv, m: Msg, steps: seq<Step>, check: RangeCheck)
    requires c.phase == Percent && !m.command
    ensures Next(c, Say(m), steps, check) == Some(OnPercent(c, m, check))
  {
  }

  lemma SayInDelay(c: Conv, m: Msg, steps: seq<Step>, check: RangeCheck)
    requires c.phase == Delay && !m.command
    ensures Next(c, Say(m), steps, check) == OnDelay(c, m)
  {
  }

  lemma PressInMenu(c: Conv, data: string, steps: seq<Step>, check: RangeCheck)
    requires c.phase == Menu
    ensures Next(c, Press(data), steps, check) == Some(OnMenu(c, Press(data), steps))
  {
  }

  lemma PressInUnit(c: Conv, data: string, steps: seq<Step>, check: RangeCheck)
    requires c.phase == UnitChoice
    ensures Next(c, Press(data), steps, check) == OnUnit(c, data)
  {
  }

  lemma PressInDelete(c: Conv, data: string, steps: seq<Step>, check: RangeCheck)
    requires c.phase == Delete
    ensures Next(c, Press(data), steps, check) == Some(OnDelete(c, data))
  {
  }

  /** The confirm button as the last input. */
  lemma ConfirmLast(e: Draft, steps: seq<Step>, check: RangeCheck)
    ensures RunInputs(Conv(Confirm, e), [Press("confirmar")], steps, check) == (Conv(Ended, e), [CreateStep(e)])
  {
    RunStep(Conv(Confirm, e), Press("confirmar"), [], steps, check);
    assert [Press("confirmar")] + [] == [Press("confirmar")];
    assert [CreateStep(e)] + [] == [CreateStep(e)];
  }

  /** A positive count of the chosen unit is stored in minutes and the confirmation is asked for. */
  lemma DelayMessageConverts(dr: Draft, delay: Msg, u: TimeUnit, t: int, steps: seq<Step>, check: RangeCheck)
    requires dr.unit == Some(UnitWord(u))
    requires Truthy(delay.text) && !delay.command && ParseInt(delay.text.value) == Some(t) && t > 0
    ensures Next(Conv(Delay, dr), Say(delay), steps, check)
      == Some(Reply(Conv(Confirm, dr.(delay := Some(t * MinutesPer(u)))), NoEffect, ConfirmCallbacks))
  {
    var e := dr.(delay := Some(t * MinutesPer(u)));
    UnitCallbackRoundTrip(u);
    assert OnDelay(Conv(Delay, dr), delay) == Some(Reply(Conv(Confirm, e), NoEffect, ConfirmCallbacks));
    SayInDelay(Conv(Delay, dr), delay, steps, check);
  }

  /** The last two inputs: the delay message and the confirm button. */
  lemma DelayThenConfirm(dr: Draft, delay: Msg, u: TimeUnit, t: int, steps: seq<Step>, check: RangeCheck)
    requires dr.unit == Some(UnitWord(u))
    requires Truthy(delay.text) && !delay.command && ParseInt(delay.text.value) == Some(t) && t > 0
    ensures var e := dr.(delay := Some(t * MinutesPer(u)));
      RunInputs(Conv(Delay, dr), [Say(delay), Press("confirmar")], steps, check) == (Conv(Ended, e), [CreateStep(e)])
  {
    var e := dr.(delay := Some(t * MinutesPer(u)));
    DelayMessageConverts(dr, delay, u, t, steps, check);
    ConfirmLast(e, steps, check);
    RunQuiet(Conv(Delay, dr), Say(delay), [Press("confirmar")], steps, check, Reply(Conv(Confirm, e), NoEffect, ConfirmCallbacks));
    assert [Say(delay)] + [Press("confirmar")] == [Say(delay), Press("confirmar")];
  }

  lemma NameStep(d: Draft, name: Msg, rest: seq<Input>, steps: seq<Step>, check: RangeCheck)
    requires Truthy(name.text) && !name.command
    ensures RunInputs(Conv(Name, d), [Say(name)] + rest, steps, check)
      == RunInputs(Conv(Content, d.(name := Some(Strip(name.text.value)))), rest, steps, check)
  {
    var r := Reply(Conv(Content, d.(name := Some(Strip(name.text.value)))), NoEffect, CancelOnly);
    assert Next(Conv(Name, d), Say(name), steps, check) == Some(r) by {
      SayInName(Conv(Name, d), name, steps, check);
    }
    RunQuiet(Conv(Name, d), Say(name), rest, steps, check, r);
  }

  lemma ContentStep(d: Draft, content: Msg, rest: seq<Input>, steps: seq<Step>, check: RangeCheck)
    requires Capture(content).Some? && !content.command
    ensures var cap := Capture(content).value;
      RunInputs(Conv(Content, d), [Say(content)] + rest, steps, check)
        == RunInputs(Conv(Percent, d.(media := cap.media, text := cap.text)), rest, steps, check)
  {
    var cap := Capture(content).value;
    var r := Reply(Conv(Percent, d.(media := cap.media, text := cap.text)), NoEffect, CancelOnly);
    assert Next(Conv(Content, d), Say(content), steps, check) == Some(r) by {
      SayInContent(Conv(Content, d), content, steps, check);
    }
    RunQuiet(Conv(Content, d), Say(content), rest, steps, check, r);
  }

  lemma PercentStep(d: Draft, percent: Msg, p: Float, rest: seq<Input>, steps: seq<Step>, check: RangeCheck)
    requires Truthy(percent.text) && !percent.command && DiscountInput(percent.text.value, check) == Some(p)
    ensures RunInputs(Conv(Percent, d), [Say(percent)] + rest, steps, check)
      == RunInputs(Conv(UnitChoice, d.(discount := Some(p))), rest, steps, check)
  {
    var r := Reply(Conv(UnitChoice, d.(discount := Some(p))), NoEffect, UnitCallbacks);
    assert Next(Conv(Percent, d), Say(percent), steps, check) == Some(r) by {
      SayInPercent(Conv(Percent, d), percent, steps, check);
    }
    RunQuiet(Conv(Percent, d), Say(percent), rest, steps, check, r);
  }

  lemma UnitStep(d: Draft, u: TimeUnit, rest: seq<Input>, steps: seq<Step>, check: RangeCheck)
    ensures RunInputs(Conv(UnitChoice, d), [Press(UnitCallback(u))] + rest, steps, check)
      == RunInputs(Conv(Delay, d.(unit := Some(UnitWord(u)))), rest, steps, check)
  {
    UnitButtonRecordsUnit(Conv(UnitChoice, d), u, steps, check);
    RunQuiet(Conv(UnitChoice, d), Press(UnitCallback(u)), rest, steps, check,
             Reply(Conv(Delay, d.(unit := Some(UnitWord(u)))), NoEffect, CancelOnly));
  }

  /** The name and content messages. */
  lemma NameThenContent(name: Msg, content: Msg, rest: seq<Input>, steps: seq<Step>, check: RangeCheck)
    requires Truthy(name.text) && !name.command && Capture(content).Some? && !content.command
    ensures var cap := Capture(content).value;
      RunInputs(Conv(Name, EmptyDraft), [Say(name), Say(content)] + rest, steps, check)
        == RunInputs(Conv(Percent, EmptyDraft.(name := Some(Strip(name.text.value)), media := cap.media, text := cap.text)), rest, steps, check)
  {
    var d1 := EmptyDraft.(name := Some(Strip(name.text.value)));
    ContentStep(d1, content, rest, steps, check);
    NameStep(EmptyDraft, name, [Say(content)] + rest, steps, check);
    PrependOne(Say(name), Say(content), rest);
  }

  /** The discount message and a unit button. */
  lemma PercentThenUnit(d: Draft, percent: Msg, p: Float, u: TimeUnit, rest: seq<Input>, steps: seq<Step>, check: RangeCheck)
    requires Truthy(percent.text) && !percent.command && DiscountInput(percent.text.value, check) == Some(p)
    ensures RunInputs(Conv(Percent, d), [Say(percent), Press(UnitCallback(u))] + rest, steps, check)
      == RunInputs(Conv(Delay, d.(discount := Some(p), unit := Some(UnitWord(u)))), rest, steps, check)
  {
    UnitStep(d.(discount := Some(p)), u, rest, steps, check);
    PercentStep(d, percent, p, [Press(UnitCallback(u))] + rest, steps, check);
    PrependOne(Say(percent), Press(UnitCallback(u)), rest);
  }

  /** The message inputs from the name to the discount, then the unit button. */
  lemma FillDraft(name: Msg, content: Msg, percent: Msg, u: TimeUnit, p: Float, rest: seq<Input>, steps: seq<Step>,
                  check: RangeCheck)
    requires Truthy(name.text) && !name.command && Capture(content).Some? && !content.command
    requires Truthy(percent.text) && !percent.command && DiscountInput(percent.text.value, check) == Some(p)
    ensures var cap := Capture(content).value;
      var dr := Draft(Some(Strip(name.text.value)), cap.media, cap.text, Some(p), None, Some(UnitWord(u)));
      RunInputs(Conv(Name, EmptyDraft), [Say(name), Say(content), Say(percent), Press(UnitCallback(u))] + rest, steps, check)
        == RunInputs(Conv(Delay, dr), rest, steps, check)
  {
    var cap := Capture(content).value;
    var d2 := EmptyDraft.(name := Some(Strip(name.text.value)), media := cap.media, text := cap.text);
    var s2 := [Say(percent), Press(UnitCallback(u))] + rest;
    PercentThenUnit(d2, percent, p, u, rest, steps, check);
    NameThenContent(name, content, s2, steps, check);
    PrependTwo(Say(name), Say(content), Say(percent), Press(UnitCallback(u)), rest);
  }

  /** The command from an admin, then "create": an empty draft and the name prompt. */
  lemma OpenThenCreate(d: Draft, rest: seq<Input>, steps: seq<Step>, check: RangeCheck)
    ensures RunInputs(Conv(Ended, d), [Open(true, true), Press("criar_recuperacao")] + rest, steps, check)
      == RunInputs(Conv(Name, EmptyDraft), rest, steps, check)
  {
    var r1 := Reply(Conv(Menu, d), NoEffect, MenuCallbacks(|steps|));
    var r2 := Reply(Conv(Name, EmptyDraft), NoEffect, CancelOnly);
    assert Next(Conv(Menu, d), Press("criar_recuperacao"), steps, check) == Some(r2) by {
      PressInMenu(Conv(Menu, d), "criar_recuperacao", steps, check);
    }
    RunQuiet(Conv(Menu, d), Press("criar_recuperacao"), rest, steps, check, r2);
    RunQuiet(Conv(Ended, d), Open(true, true), [Press("criar_recuperacao")] + rest, steps, check, r1);
    PrependOne(Open(true, true), Press("criar_recuperacao"), rest);
  }

  /**
   The creation dialog end to end: the command, "create", a name, the content,
   a discount, a unit button, a delay and "confirm" store exactly one step
   carrying what was entered, the delay converted to minutes.
   */
  lemma CreationDialog(d: Draft, steps: seq<Step>, check: RangeCheck, name: Msg, content: Msg, percent: Msg,
                       u: TimeUnit, delay: Msg, p: Float, t: int)
    requires Truthy(name.text) && !name.command && Capture(content).Some? && !content.command
    requires Truthy(percent.text) && !percent.command && DiscountInput(percent.text.value, check) == Some(p)
    requires Truthy(delay.text) && !delay.command && ParseInt(delay.text.value) == Some(t) && t > 0
    ensures var e := CreatedDraft(name, content, p, u, t);
      RunInputs(Conv(Ended, d), CreationInputs(name, content, percent, u, delay), steps, check) == (Conv(Ended, e), [CreateStep(e)])
  {
    var cap := Capture(content).value;
    var dr := Draft(Some(Strip(name.text.value)), cap.media, cap.text, Some(p), None, Some(UnitWord(u)));
    var tail := [Say(delay), Press("confirmar")];
    var middle := [Say(name), Say(content), Say(percent), Press(UnitCallback(u))] + tail;
    DelayThenConfirm(dr, delay, u, t, steps, check);
    FillDraft(name, content, percent, u, p, tail, steps, check);
    OpenThenCreate(d, middle, steps, check);
    CreationInputsSplit(name, content, percent, u, delay);
    CreatedDraftParts(name, content, p, u, t);
  }

  /**
   The program stores a step whose discount is NaN: the creation dialog with
   "nan" typed as the discount goes through, and the stored draft fails the
   intended range.
   */
  lemma NanStoredByDialog(d: Draft, steps: seq<Step>, name: Msg, content: Msg, percent: Msg,
                          u: TimeUnit, delay: Msg, t: int)
    requires Truthy(name.text) && !name.command && Capture(content).Some? && !content.command
    requires percent.text == Some("nan") && !percent.command
    requires Truthy(delay.text) && !delay.command && ParseInt(delay.text.value) == Some(t) && t > 0
    ensures var e := CreatedDraft(name, content, NaN, u, t);
      && RunInputs(Conv(Ended, d), CreationInputs(name, content, percent, u, delay), steps, AsWritten)
           == (Conv(Ended, e), [CreateStep(e)])
      && e.discount == Some(NaN)
      && !ValidDraft(e, Corrected)
  {
    NanDiscountInput();
    CreationDialog(d, steps, AsWritten, name, content, percent, u, delay, NaN, t);
  }

  lemma CreationInputsSplit(name: Msg, content: Msg, percent: Msg, u: TimeUnit, delay: Msg)
    ensures CreationInputs(name, content, percent, u, delay)
      == [Open(true, true), Press("criar_recuperacao")]
         + ([Say(name), Say(content), Say(percent), Press(UnitCallback(u))] + [Say(delay), Press("confirmar")])
  {
  }

  lemma CreatedDraftParts(name: Msg, content: Msg, p: Float, u: TimeUnit, t: int)
    requires Truthy(name.text) && Capture(content).Some?
    ensures var cap := Capture(content).value;
      Draft(Some(Strip(name.text.value)), cap.media, cap.text, Some(p), None, Some(UnitWord(u))).(delay := Some(t * MinutesPer(u)))
      == CreatedDraft(name, content, p, u, t)
  {
  }

  lemma PrependOne(a: Input, b: Input, rest: seq<Input>)
    ensures [a] + ([b] + rest) == [a, b] + rest
  {
  }

  lemma PrependTwo(a: Input, b: Input, c: Input, e: Input, rest: seq<Input>)
    ensures [a, b] + ([c, e] + rest) == [a, b, c, e] + rest
  {
  }

  /** One input followed by the rest: the effects of the first come first. */
  lemma RunStep(c: Conv, input: Input, rest: seq<Input>, steps: seq<Step>, check: RangeCheck)
    ensures var r := Handle(c, input, steps, check);
      var x := RunInputs(r.conv, rest, steps, check);
      RunInputs(c, [input] + rest, steps, check) == (x.0, (if r.effect.NoEffect? then [] else [r.effect]) + x.1)
  {
    assert ([input] + rest)[0] == input;
    assert ([input] + rest)[1..] == rest;
  }

  /** An input that leaves the store alone passes the rest on unchanged. */
  lemma RunQuiet(c: Conv, input: Input, rest: seq<Input>, steps: seq<Step>, check: RangeCheck, r: Reply)
    requires Next(c, input, steps, check) == Some(r) && r.effect == NoEffect
    ensures RunInputs(c, [input] + rest, steps, check) == RunInputs(r.conv, rest, steps, check)
  {
    assert ([input] + rest)[0] == input;
    assert ([input] + rest)[1..] == rest;
    var x := RunInputs(r.conv, rest, steps, check);
    assert [] + x.1 == x.1;
  }

  /**
   An input whose handler raises is dropped: the run goes on from the same
   configuration, as if the input had not come.
   */
  lemma RaisingInputDropped(c: Conv, input: Input, rest: seq<Input>, steps: seq<Step>, check: RangeCheck)
    requires Next(c, input, steps, check).None?
    ensures RunInputs(c, [input] + rest, steps, check) == RunInputs(c, rest, steps, check)
  {
    assert ([input] + rest)[0] == input;
    assert ([input] + rest)[1..] == rest;
    var x := RunInputs(c, rest, steps, check);
    assert [] + x.1 == x.1;
  }
}

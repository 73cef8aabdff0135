# Abandoned-checkout recovery: a Dafny model

This project models the recovery feature of a chat-commerce bot. A user who
opens the purchase flow without paying gets a sequence of discounted
re-offers ("recoveries"). An admin configures those steps through a chat
dialog.

Two source files form the core. Each is modelled in its own terms.

- `modules/recovery_system.py`
  - `start_recovery_for_user` is `Sequencer.Start`. It guards the creation of a tracking row for a (user, bot) pair.
  - `process_recovery_sequence` is `Sequencer.Process` and `Sequencer.Loop`. It walks the steps in list order: wait the step's own delay, re-read the tracking row, give up unless the row is still `"active"`, otherwise send the step. Its behaviour is a trace of `Wait`, `Send` and `Stop` events. The trace is taken under an environment that says:
    - what the step listing returned;
    - what each post-wait lookup found;
    - whether each collaborator raised.

    `Process` reads what `send_recovery` returns for each step (`Sequencer.SendOutcomes`) and hands it to `Loop`, which looks at a step's outcome only when it reaches that step's send.
  - `send_recovery` is `Recovery.SendRecovery`. It creates one recovery payment per plan at the discounted price. It composes the photo, video or text message with one pay button per plan. It reports success.
- `comandos/recuperacao.py`
  - The admin conversation is `Conversation.Next`, a transition function over (state, draft step).
  - Its inputs are the `/recuperacao` command, button presses (callback data) and chat messages.
  - It returns three things: the next configuration, what the handler does to the step store, and the callback data of the buttons the reply offers.
  - It takes the discount step's range check as a parameter. `AsWritten` is the program's check, which lets NaN through. `Corrected` is the intended check, kept beside it for the finding below.
  - `Conversation.RunInputs` feeds a list of inputs. A handler that raises leaves the conversation where it was: the exception goes to the bot's error handlers and the input is dropped.
  - In the message states, a message that is a bot command is filtered out and changes nothing.
  - The pure rules inside the handlers are in `DialogRules`: the unit conversion, the discount and delay checks, the delay label, the callback data and how it is parsed back, message capture and the menu.

Python's own parsing is modelled where the dialog depends on it, in `Text` and `PyFloat`. The model follows Python's grammar; numbers are read as exact decimals (see "Left out" for where that differs):

- `str.strip`
- `str.split`
- `int()`, including sign, surrounding whitespace and digit-group underscores
- `float()`, including `inf`, `infinity`, `nan`, exponents and underscores
- IEEE comparison semantics, under which every comparison with NaN is false

Files:

- `wrappers.dfy`: `Option`
- `text.dfy`: strings and `int()`
- `pyfloat.dfy`: `float()`
- `recovery.dfy`: `send_recovery`
- `sequencer.dfy`: start and process, and their properties
- `dialog_rules.dfy`: the dialog's rules
- `conversation.dfy`: the dialog's state machine, and its properties

Behaviours of the code worth noting, which the model keeps:

- **Start ignores the status.** Start refuses when any tracking row exists for the pair, whatever its status. It does not check for an active row specifically.
- **The fallback text applies only when the key is missing.** The text-only message falls back to the generic phrase only when the step has no `text` key. A `None` text is passed through as-is.
- **A media step without a `text` key fails the send.** The `KeyError` is caught, and the send returns `False`.
- **Waits add up.** Each wait is the step's own delay, and the waits run one after another. The send of step i therefore happens after 60 · (delay₀ + … + delayᵢ) seconds.
- **The listing order is taken as given.** The steps are walked in the order the listing returns them. Any sorting by delay belongs to the store, which is not part of this model.
- **An empty listing does not stop tracking.** When the listing is empty, the routine returns without stopping tracking, so the row stays as it was.

## Model

| member | source | states |
|---|---|---|
| Text.Split | comandos/recuperacao.py:237 | `str.split` on one separator gives at least one piece and no piece contains the separator. Joining the pieces with the separator gives back the input. |
| Text.SplitJoin | comandos/recuperacao.py:237 | Splitting a join of separator-free pieces gives back the pieces: split is the inverse of join. |
| Text.SecondFieldOf | comandos/recuperacao.py:365 | `(p + "_" + f).split("_")[1]` is `f` when neither `p` nor `f` contains `_`. |
| Text.ParseIntOfIntToString | comandos/recuperacao.py:256 | `int(str(n)) == n` for every integer, negative ones included. |
| PyFloat.ReplaceChar | comandos/recuperacao.py:200 | `replace(',', '.')` keeps the length and changes exactly the commas. |
| PyFloat.ParseFloatOfIntToString | comandos/recuperacao.py:200 | `float(str(n))` is the finite value `n`, with the sign of `n`. |
| Recovery.Badge | modules/recovery_system.py:26-29 | The "% OFF" badge is shown exactly when the discount is positive. It carries the discount's integer part. |
| Recovery.Payments | modules/recovery_system.py:20-40 | One recovery payment per plan, in plan order. Payment i is for plan i at the discounted price; it is marked as recovery and carries the step name, plan i's original price, the discount and the title "<plan name> - Recovery". |
| Recovery.Buttons | modules/recovery_system.py:20-44 | One pay button per plan, in plan order. Button i names plan i, shows the discounted price and the step's badge, and pays payment id i. |
| Recovery.Compose | modules/recovery_system.py:47-82 | A media step with a non-empty text is sent as a photo (kind "photo") or else a video, with that file and that caption. A media step with an empty or `None` text sends the same media with no caption. A media step without a text key raises. A step without media sends a text message: its text, no text for `None`, or the fallback phrase when the key is missing. The buttons are attached unchanged. |
| Recovery.ComposeShowsStep | modules/recovery_system.py:47-82 | Reading a composed message back gives the step: its media file, a photo exactly when the stored kind is "photo", and its text whenever that text is non-empty. |
| Recovery.SendRecovery | modules/recovery_system.py:7-88 | No plans, or a raising plan lookup: returns False and does nothing. Otherwise payments are created for the plans in order, up to the first one whose creation raises; payment i is at plan i's discounted price. It returns True iff every payment was created, the message could be composed and delivery did not raise, and then (and only then) a message is delivered: the one composed for the step with the buttons for the created payments. On success, button i names plan i, shows the price of payment i, pays payment id i, and has a badge iff the discount is positive. |
| Recovery.ZeroDiscountKeepsPrices | modules/recovery_system.py:23-29 | With a zero discount every payment is at the plan's own price and no button has a badge. |
| Recovery.OffersWithinPrice | modules/recovery_system.py:23 | For a discount in [0, 100) and positive plan prices, every payment's price is positive and no higher than the original. |
| Sequencer.Start | modules/recovery_system.py:131-154 | Launches iff nothing raises, no row exists for (user, bot) and the listing is non-empty. It raises iff a raising call is reached. The store changes only by the new active row, which stays when scheduling the task raises. A launch adds exactly one row, active, and keeps every other row. |
| Sequencer.StartIsIdempotent | modules/recovery_system.py:136-141 | A second start right after a first never launches, whatever it raises, and leaves the store as the first left it. |
| Sequencer.OrphanRowBlocksStarts | modules/recovery_system.py:149-153 | When scheduling the sequence raises, an active row is left with no sequence behind it, and every later start for the pair launches nothing. |
| Sequencer.StopTracking | modules/recovery_system.py:123 | After stopping (either reading of the store), the pair has no active row and every other row is unchanged. |
| Sequencer.Loop | modules/recovery_system.py:102-124 | The loop from step k attempts the sends of consecutive steps k, k+1, … in order, each once, up to where it ends. It never ends as "no steps" or "listing failed". |
| Sequencer.LoopStops | modules/recovery_system.py:102-129 | Tracking is stopped iff the loop ends by completing or by an escaping exception. Completion stops it exactly once, as the last event. A raising final stop is followed by a second stop from the handler. |
| Sequencer.Process | modules/recovery_system.py:90-129 | A raising listing stops tracking and does nothing else. An empty listing does nothing. The steps sent are a prefix of the list, in list order. Tracking is stopped iff the run completes or hits an exception, and on completion once, at the end. |
| SequencerProperties.LoopExit | modules/recovery_system.py:108-112 | The first post-wait check that does not see an active row decides the exit: a cancel at that step, or a failed check if the lookup raised. If every check sees an active row, the run completes. |
| SequencerProperties.CancelledIff | modules/recovery_system.py:108-112 | The run is cancelled after step j's wait iff every earlier check saw an active row and step j's check saw none without raising. |
| SequencerProperties.CompletesIff | modules/recovery_system.py:102-124 | The run completes iff every post-wait check sees an active row. |
| SequencerProperties.CancelledSendsNothingMore | modules/recovery_system.py:110-112 | After a cancel at step j, no step from j on is sent and tracking is not stopped. |
| SequencerProperties.ElapsedBeforeSend | modules/recovery_system.py:102-106 | The send of step i happens after 60 × the sum of the delays of steps 0..i seconds of waiting. |
| SequencerProperties.SendResultsIgnored | modules/recovery_system.py:115-120 | What `send_recovery` returns never changes the rest of the run. Two runs that see the same tracking rows, whatever their sends returned, have the same exit and the same trace once the send outcomes are erased. |
| SequencerProperties.ApplyStopsEffect | modules/recovery_system.py:122-129 | A trace without stop leaves the store alone. With a stop, the pair has no active row: deleted under one reading, kept but not active under the other. Other rows are never touched. |
| SequencerProperties.RestartAfterCleanup | modules/recovery_system.py:122-141 | After a cleaning exit no active row is left. If stopping deletes the row, a later clean start launches again iff steps exist. If stopping only marks the row stopped, no later start ever launches. |
| SequencerProperties.NoCleanupOnEarlyReturn | modules/recovery_system.py:95-112 | A cancelled run or an empty listing leaves the store as it found it, so an existing row keeps blocking start. |
| DialogRules.ParseUnit | comandos/recuperacao.py:262-268 | Only "minutos", "horas" and "dias" are units, and each is read back as the unit whose word it is. |
| DialogRules.ToMinutes | comandos/recuperacao.py:261-268 | t units are t × (1, 60 or 1440) minutes, and at least t minutes when t > 0. |
| DialogRules.NanDiscountPassesAsWritten | comandos/recuperacao.py:199-203 | The text "nan" parses to NaN and passes the range check as written, though it is not in [0, 100). |
| DialogRules.DiscountChecksAgreeOnNumbers | comandos/recuperacao.py:201 | On every input but NaN the check as written and the corrected check agree. |
| DialogRules.PassesIff | comandos/recuperacao.py:201 | The check as written passes exactly the numbers in [0, 100) and NaN; the corrected check passes exactly the numbers in [0, 100). |
| DialogRules.NanDiscountInput | comandos/recuperacao.py:199-205 | The discount text "nan" is accepted as NaN by the program and refused by the corrected check. |
| DialogRules.DiscountInput | comandos/recuperacao.py:199-205 | The typed discount (comma as decimal point) is accepted iff it parses as a float that passes the range check, and then it is that float. Every accepted value is in [0, 100), or NaN under the check as written. |
| DialogRules.WholePercentAccepted | comandos/recuperacao.py:199-205 | A whole percentage typed in digits is accepted, as that whole number, iff it lies in [0, 100), under either check. |
| DialogRules.DelayInput | comandos/recuperacao.py:255-270 | The typed delay is accepted iff `int()` reads it and it is positive. The result is that count times the unit's minutes. |
| DialogRules.DelayOfTypedCount | comandos/recuperacao.py:256-270 | Every positive count typed in digits is accepted and converted to minutes. |
| DialogRules.FormatDelayRanges | comandos/recuperacao.py:86-88 | The label shows minutes below 60, whole hours (rounded down) below 1440, and whole days from 1440 on. |
| DialogRules.FormatShowsEnteredDelay | comandos/recuperacao.py:111-113 | A delay entered as t minutes (t < 60), t hours (t < 24) or t days is labelled with t and the same unit. |
| DialogRules.UnitCallbackRoundTrip | comandos/recuperacao.py:211-237 | Each unit button's data `tempo_<unit>` is read back by the split as its own unit word, and that word converts back to the unit. |
| DialogRules.DeleteCallbackRoundTrip | comandos/recuperacao.py:365 | Reading `del_<id>` back with `int(split('_')[1])` gives the step's id, negative ids included. |
| DialogRules.Capture | comandos/recuperacao.py:146-178 | A message is refused iff it has no photo, no video and no truthy text. A photo (largest size) wins over a video, which wins over text. A truthy caption replaces the saved text. A media message without a caption saves no text. |
| DialogRules.MenuItems | comandos/recuperacao.py:30-39 | The menu always offers "create" and ends with "cancel". It offers "view (count)" and "remove" iff steps exist. No item appears twice. |
| Conversation.Code | comandos/recuperacao.py:10 | The nine states are numbered 0..8 and only the end of the conversation is -1. |
| Conversation.CodeInjective | comandos/recuperacao.py:10 | Distinct states have distinct codes. |
| ConversationProperties.MessageStepIff | comandos/recuperacao.py:132-295 | In the name, content, discount and delay states, a bot command is filtered out and changes nothing. Any other message is refused iff the state's own check fails. A refused message asks again with only cancel offered and changes nothing. An accepted one moves to the next state and writes only that state's draft entry. The delay handler raises iff an accepted count meets a missing or unknown unit. |
| ConversationProperties.AcceptedValuesInRange | comandos/recuperacao.py:194-270 | An accepted discount is stored as the parsed number: in [0, 100), or NaN under the check as written. An accepted delay is stored as a positive number of minutes, at least the typed count. |
| ConversationProperties.NanDiscountStep | comandos/recuperacao.py:194-227 | In the discount state the text "nan" is stored as NaN and the unit is asked for; under the corrected check it is refused and asked for again. |
| ConversationProperties.EffectsOnlyFromButtons | comandos/recuperacao.py:297-374 | A step is created iff "confirmar" is pressed in the confirm state, and it is the draft as it stands. A step is deleted only by a delete-state button whose data parses to that id. |
| ConversationProperties.NextKeepsInvariant | comandos/recuperacao.py:132-326 | Every transition keeps what each state guarantees of the draft: a name from the content state on, an admissible discount from the unit choice on, a positive delay at confirmation. Any step created is therefore valid. |
| ConversationProperties.StoredStepsValid | comandos/recuperacao.py:297-318 | Over any sequence of inputs, raising handlers included, every step the dialog creates has a name (possibly empty once stripped), an admissible discount and a positive delay. |
| ConversationProperties.CorrectedStoresInRange | comandos/recuperacao.py:199-205 | With the corrected range check, every step created over any sequence of inputs has a finite discount in [0, 100). |
| ConversationProperties.UnitButtonRecordsUnit | comandos/recuperacao.py:229-248 | A unit button stores its unit word and asks for the delay. |
| ConversationProperties.DelayMessageConverts | comandos/recuperacao.py:250-291 | With a unit chosen, a positive count stores its conversion to minutes and asks for confirmation. |
| ConversationProperties.DeleteButtonDeletesItsStep | comandos/recuperacao.py:356-374 | The delete button of step i deletes exactly step i's id and ends the conversation. |
| ConversationProperties.MenuAnswered | comandos/recuperacao.py:51-130 | Every menu button is handled by the menu state and leaves it. |
| ConversationProperties.CancelAnswered | comandos/recuperacao.py:381-385 | The cancel button in a message state is handled and leaves the state. |
| ConversationProperties.UnitsAnswered | comandos/recuperacao.py:229-248 | Every unit button and cancel is handled by the unit state and leaves it. |
| ConversationProperties.ConfirmAnswered | comandos/recuperacao.py:297-326 | Both confirmation buttons are handled and leave the confirm state. |
| ConversationProperties.BackAnswered | comandos/recuperacao.py:328-354 | The back button of the listing returns to the menu. |
| ConversationProperties.DeleteAnswered | comandos/recuperacao.py:356-374 | Every delete button and cancel is handled by the delete state and ends the conversation. |
| ConversationProperties.OfferedButtonsAnswered | comandos/recuperacao.py:377-391 | No reply offers a button that the state it leads to would ignore or raise on. Every offered button is handled there and moves the conversation on. |
| ConversationProperties.OpenThenCreate | comandos/recuperacao.py:17-75 | The admin's command followed by "create" reaches the name prompt with an empty draft. |
| ConversationProperties.CreationDialog | comandos/recuperacao.py:17-326 | The whole creation dialog stores exactly one step and ends the conversation. The dialog is: command, "create", name, content, discount, unit button, delay, "confirm", none of them a bot command. The stored step carries the stripped name, the captured content, the parsed discount and the delay in minutes. |
| ConversationProperties.NanStoredByDialog | comandos/recuperacao.py:194-318 | The creation dialog with "nan" typed as the discount stores a step whose discount is NaN, outside [0, 100). |
| ConversationProperties.RaisingInputDropped | comandos/recuperacao.py:229-270 | An input whose handler raises (a unit button without `_`, a delay with no known unit) is dropped: the run goes on from the same configuration. |

## Left out

- **The data store is not part of this model.** This covers `modules/manager.py`'s plans, payments, steps and tracking rows. Its answers are parameters:
  - the plan list, the payment ids and the faults of `send_recovery`;
  - the step listing and the post-wait lookups of the sequencer;
  - the step list of the dialog, whose length stands for `count_recovery_messages`.
- **`stop_recovery_tracking` is not visible.** Both readings (delete the row, or mark it stopped) are kept as a parameter.
- **`create_recovery_tracking_table`, logging and `conv_state` flags are left out.** Creating the table and the `print` logging have no effect on the modelled behaviour. The same holds for the dialog's `conv_state` flags.
- **Real time, `asyncio.sleep` and task scheduling are left out.** Waits are trace events. Concurrent changes to the tracking store are what the lookups observe. The race between two concurrent starts for the same pair is not modelled.
- **The chat API is abstract.** A delivered message is an `Outgoing` value, and a delivery exception is an oracle fault. Some failures are left out entirely: `query.answer`, `edit_text` and `reply_text` failing inside the dialog, and `get_file` raising in the content handler (comandos/recuperacao.py:189-192).
- **The Portuguese reply texts and the rendered button labels are left out.** The labels' `:.2f` formatting goes with them. A pay button is modelled by its plan, price, badge and payment id.
- **`modules/utils.py` is not part of this model.** `process_command` and `is_admin` become the two flags of the command input. `cancel` is taken to end the conversation. The fallback `error_callback` is never reached, because every state's callback handler accepts any data.
- **Python's text handling is ASCII-only here.** Unicode whitespace and non-ASCII digits, which `str.strip`, `int()` and `float()` also accept, are not modelled.
- Recovery.SendRecovery: prices are exact reals. `round(value * (1 - d/100), 2)` and binary floating point are not modelled.
- DialogRules.DiscountInput: `float()` is read as an exact decimal, not rounded to a double. Inputs that round differ: Python turns `"99.99999999999999999"` into `100.0` and refuses it, while this model accepts it; Python turns `"-1e-400"` into `-0.0` and accepts it, while this model refuses it as negative.
- Text.ParseInt: Python's `int()` refuses strings of more than 4300 digits; this model reads integers of any length.
- Recovery.OffersWithinPrice: the price is positive only because prices are exact here. The source rounds to cents, so a 0.01 plan at a 60% discount is offered at 0.00.
- **A NaN discount is not followed into `send_recovery`.** The dialog can store NaN (see "Findings"), but `Recovery.Step` carries a real discount.
- Conversation.RunInputs: the step list is the same for the whole run. The store effects are returned in order, not applied to the list the menu and delete buttons are built from.

## Findings

| source | as written | input that shows it | evidently intended | confidence | as-written member | corrected member |
|---|---|---|---|---|---|---|
| comandos/recuperacao.py:200-201 | `porcentagem < 0 or porcentagem >= 100` rejects; everything else is stored as the discount | the text `nan`: `float("nan")` is NaN, both comparisons are false, and NaN is stored as the discount | only a finite percentage in [0, 100) is accepted | high, not executed | ConversationProperties.NanStoredByDialog | ConversationProperties.CorrectedStoresInRange |

The conversation is modelled with the check as a parameter. Under `AsWritten` (the program) `ConversationProperties.NanStoredByDialog` stores NaN. Under `Corrected` (`DialogRules.DiscountInRange`) `ConversationProperties.CorrectedStoresInRange` proves every stored discount is a number in [0, 100). `DialogRules.DiscountChecksAgreeOnNumbers` shows the two checks differ on NaN only.

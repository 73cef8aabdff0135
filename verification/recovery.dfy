/**
 Recovery steps and the offer composer `send_recovery` (modules/recovery_system.py).

 A recovery step is one configured reminder: a name, an optional media
 attachment, a text, a discount percentage and a delay in minutes. Sending a
 step looks up the bot's price plans, creates one discounted payment per plan,
 builds one pay button per plan and delivers one message carrying the buttons.
 The plan store, the payment store and the chat API are outside the model:
 what they return (or that they raise) is given by a `SendEnv`.
 */
module Recovery {
  import opened Wrappers

  /** A stored media reference; `kind` is the stored type string ("photo" or "video"). */
  datatype Media = Media(file: string, kind: string)

  /** The stored `text` entry of a step: the key may be missing, hold None, or hold a string. */
  datatype TextField = Missing | Null | Text(s: string)

  datatype Step = Step(id: int, name: string, media: Option<Media>, text: TextField, discount: real, delay: int)

  datatype Plan = Plan(name: string, value: real)

  /** The modified plan handed to the payment store for one offer. */
  datatype Payment = Payment(
    plan: Plan,
    value: real,
    isRecovery: bool,
    recoveryName: string,
    originalValue: real,
    discount: real,
    title: string)

  /** One pay button: the plan, the offered price, the percent-off badge and the payment it pays. */
  datatype Button = Button(planName: string, price: real, badge: Option<int>, paymentId: int)

  /** The single message delivered to the user. */
  datatype Outgoing =
    | SendPhoto(file: string, caption: Option<string>, buttons: seq<Button>)
    | SendVideo(file: string, caption: Option<string>, buttons: seq<Button>)
    | SendText(text: Option<string>, buttons: seq<Button>)
  {
    function Buttons(): seq<Button> {
      match this
      case SendPhoto(_, _, b) => b
      case SendVideo(_, _, b) => b
      case SendText(_, b) => b
    }

    /** The attached file, if any. */
    function File(): Option<string> {
      match this
      case SendPhoto(f, _, _) => Some(f)
      case SendVideo(f, _, _) => Some(f)
      case SendText(_, _) => None
    }

    /** The text the user reads: the caption of a media message or the body of a text message. */
    function Shown(): Option<string> {
      match this
      case SendPhoto(_, c, _) => c
      case SendVideo(_, c, _) => c
      case SendText(t, _) => t
    }
  }

  /** Where an exception is raised inside `send_recovery`, if anywhere. */
  datatype Fault =
    | NoFault
    | PlansFault              // the plan lookup raises
    | PaymentFault(at: nat)   // creating the payment for plan `at` raises
    | DeliveryFault           // the chat API raises while delivering

  /** What the collaborators answer: the bot's plans and the id of each created payment. */
  datatype SendEnv = SendEnv(plans: seq<Plan>, paymentIds: seq<int>, fault: Fault)

  predicate ValidSendEnv(env: SendEnv) {
    |env.paymentIds| == |env.plans|
  }

  /** The result of `send_recovery`: its return value, the payments it created and the message it delivered. */
  datatype SendReport = SendReport(ok: bool, payments: seq<Payment>, delivered: Option<Outgoing>)

  /** The text sent when a step without media has no `text` key at all. */
  const FallbackText: string := "Oferta especial para você!"

  /** Python truthiness of the stored text: a non-empty string. */
  predicate HasCaption(t: TextField) {
    t.Text? && |t.s| > 0
  }

  /** The offered price: the original price less `discount` percent (exact, not rounded to cents). */
  function Discounted(value: real, discount: real): real {
    value * (1.0 - discount / 100.0)
  }

  /** The percent-off badge: shown only for a positive discount, as its integer part. */
  function Badge(discount: real): (b: Option<int>)
    ensures b.Some? <==> discount > 0.0
    ensures b.Some? ==> b.value as real <= discount < b.value as real + 1.0
  {
    if discount > 0.0 then Some(discount.Floor) else None
  }

  function PaymentFor(step: Step, plan: Plan): Payment {
    Payment(plan, Discounted(plan.value, step.discount), true, step.name, plan.value, step.discount,
            plan.name + " - Recovery")
  }

  /** One recovery payment per plan, in plan order (modules/recovery_system.py:18-41). */
  function Payments(step: Step, plans: seq<Plan>): (ps: seq<Payment>)
    ensures |ps| == |plans|
    ensures forall i :: 0 <= i < |plans| ==>
      && ps[i].plan == plans[i]
      && ps[i].value == Discounted(plans[i].value, step.discount)
      && ps[i].isRecovery
      && ps[i].recoveryName == step.name
      && ps[i].originalValue == plans[i].value
      && ps[i].discount == step.discount
      && ps[i].title == plans[i].name + " - Recovery"
  {
    seq(|plans|, i requires 0 <= i < |plans| => PaymentFor(step, plans[i]))
  }

  function ButtonFor(step: Step, plan: Plan, paymentId: int): Button {
    Button(plan.name, Discounted(plan.value, step.discount), Badge(step.discount), paymentId)
  }

  function Buttons(step: Step, plans: seq<Plan>, ids: seq<int>): (bs: seq<Button>)
    requires |ids| == |plans|
    ensures |bs| == |plans|
    ensures forall i :: 0 <= i < |plans| ==>
      && bs[i].planName == plans[i].name
      && bs[i].price == Discounted(plans[i].value, step.discount)
      && bs[i].badge == Badge(step.discount)
      && bs[i].paymentId == ids[i]
  {
    seq(|plans|, i requires 0 <= i < |plans| => ButtonFor(step, plans[i], ids[i]))
  }

  /**
   The message for a step (modules/recovery_system.py:48-82); None where reading
   the `text` key raises.
   */
  function Compose(step: Step, buttons: seq<Button>): (m: Option<Outgoing>)
    ensures m.Some? ==> m.value.Buttons() == buttons
    ensures m.None? <==> step.media.Some? && step.text.Missing?
    ensures step.media.Some? && HasCaption(step.text) ==>
      m == Some(if step.media.value.kind == "photo"
                then SendPhoto(step.media.value.file, Some(step.text.s), buttons)
                else SendVideo(step.media.value.file, Some(step.text.s), buttons))
    // media with an empty or null text: the media alone, by its kind
    ensures step.media.Some? && !step.text.Missing? && !HasCaption(step.text) ==>
      m == Some(if step.media.value.kind == "photo"
                then SendPhoto(step.media.value.file, None, buttons)
                else SendVideo(step.media.value.file, None, buttons))
    // no media: a text message; the fallback text when the key is missing, no text when it is null
    ensures step.media.None? && step.text.Missing? ==> m == Some(SendText(Some(FallbackText), buttons))
    ensures step.media.None? && step.text.Null? ==> m == Some(SendText(None, buttons))
    ensures step.media.None? && step.text.Text? ==> m == Some(SendText(Some(step.text.s), buttons))
  {
    match step.media
    case Some(media) =>
      if step.text.Missing? then None
      else
        var caption := if HasCaption(step.text) then Some(step.text.s) else None;
        if media.kind == "photo" then Some(SendPhoto(media.file, caption, buttons))
        else Some(SendVideo(media.file, caption, buttons))
    case None =>
      var text := match step.text
        case Missing => Some(FallbackText)
        case Null => None
        case Text(s) => Some(s);
      Some(SendText(text, buttons))
  }

  /**
   Reading a composed message back gives the step: its file, a photo exactly
   when the stored kind is "photo", and its text whenever that text is non-empty.
   */
  lemma ComposeShowsStep(step: Step, buttons: seq<Button>)
    ensures var m := Compose(step, buttons);
      m.Some? ==>
        && m.value.File() == (if step.media.Some? then Some(step.media.value.file) else None)
        && (step.media.Some? ==> (m.value.SendPhoto? <==> step.media.value.kind == "photo"))
        && (HasCaption(step.text) ==> m.value.Shown() == Some(step.text.s))
        && (m.value.Shown().None? ==> !HasCaption(step.text))
  {
  }

  /** The number of payments created before the loop over plans stops. */
  function PaymentsMade(env: SendEnv): (n: nat)
    ensures n <= |env.plans|
  {
    if env.fault.PaymentFault? && env.fault.at < |env.plans| then env.fault.at else |env.plans|
  }

  /** `send_recovery(context, user_id, recovery_data, bot_id)`. */
  function SendRecovery(step: Step, env: SendEnv): (r: SendReport)
    requires ValidSendEnv(env)
    // no plans (or the lookup raises): failure, nothing created, nothing sent
    ensures |env.plans| == 0 || env.fault.PlansFault? ==> r == SendReport(false, [], None)
    // payments are created one per plan, in plan order, up to a raising creation
    ensures !env.fault.PlansFault? ==> |r.payments| == PaymentsMade(env)
    ensures forall i :: 0 <= i < |r.payments| ==>
      && r.payments[i].plan == env.plans[i]
      && r.payments[i].value == Discounted(env.plans[i].value, step.discount)
      && r.payments[i].originalValue == env.plans[i].value
      && r.payments[i].discount == step.discount
      && r.payments[i].recoveryName == step.name
      && r.payments[i].isRecovery
    // success exactly when plans exist and nothing raised
    ensures r.ok <==>
      |env.plans| > 0 && env.fault != PlansFault && env.fault != DeliveryFault
      && PaymentsMade(env) == |env.plans| && !(step.media.Some? && step.text.Missing?)
    ensures r.ok <==> r.delivered.Some?
    // what is delivered is the composed message carrying the buttons for the created payments
    ensures r.ok ==> r.delivered == Compose(step, Buttons(step, env.plans, env.paymentIds))
    // on success, button i offers plan i at the price of payment i and pays payment i
    ensures r.ok ==>
      var buttons := r.delivered.value.Buttons();
      && |buttons| == |env.plans| == |r.payments|
      && forall i :: 0 <= i < |buttons| ==>
        && buttons[i].planName == env.plans[i].name
        && buttons[i].price == r.payments[i].value
        && buttons[i].paymentId == env.paymentIds[i]
        && (buttons[i].badge.Some? <==> step.discount > 0.0)
  {
    if env.fault.PlansFault? || |env.plans| == 0 then SendReport(false, [], None)
    else
      var made := PaymentsMade(env);
      var payments := Payments(step, env.plans[..made]);
      if made < |env.plans| then SendReport(false, payments, None)
      else
        match Compose(step, Buttons(step, env.plans, env.paymentIds))
        case None => SendReport(false, payments, None)
        case Some(message) =>
          if env.fault.DeliveryFault? then SendReport(false, payments, None)
          else SendReport(true, payments, Some(message))
  }

  /** With no discount, every offered price is the plan's own price and no badge is shown. */
  lemma ZeroDiscountKeepsPrices(step: Step, env: SendEnv)
    requires ValidSendEnv(env)
    requires step.discount == 0.0
    ensures var r := SendRecovery(step, env);
      && (forall i :: 0 <= i < |r.payments| ==> r.payments[i].value == env.plans[i].value)
      && (r.ok ==> forall b :: b in r.delivered.value.Buttons() ==> b.badge.None?)
  {
    var r := SendRecovery(step, env);
    forall i | 0 <= i < |r.payments|
      ensures r.payments[i].value == env.plans[i].value
    {
      assert r.payments[i].value == Discounted(env.plans[i].value, 0.0);
    }
  }

  /**
   For a discount in [0, 100) and positive plan prices, every payment is
   created at a positive price no higher than the plan's own.
   */
  lemma OffersWithinPrice(step: Step, env: SendEnv)
    requires ValidSendEnv(env)
    requires 0.0 <= step.discount < 100.0
    requires forall i :: 0 <= i < |env.plans| ==> env.plans[i].value > 0.0
    ensures var r := SendRecovery(step, env);
      forall i :: 0 <= i < |r.payments| ==> 0.0 < r.payments[i].value <= r.payments[i].originalValue
  {
    var r := SendRecovery(step, env);
    forall i | 0 <= i < |r.payments|
      ensures 0.0 < r.payments[i].value <= r.payments[i].originalValue
    {
      var v := env.plans[i].value;
      var f := 1.0 - step.discount / 100.0;
      assert 0.0 < f <= 1.0;
      assert 0.0 < v * f <= v;
    }
  }
}

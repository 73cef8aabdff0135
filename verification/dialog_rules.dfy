/**
 The pure rules inside the admin dialog's handlers (comandos/recuperacao.py):
 time units, the discount and delay checks, the delay label, the callback
 data of the buttons and how it is read back, message capture and the menu.
 */
module DialogRules {
  import opened Wrappers
  import opened Text
  import opened PyFloat
  import opened Recovery

  // ---------------------------------------------------------------- time units

  datatype TimeUnit = Minutes | Hours | Days

  /** The unit word carried in the unit buttons' callback data and stored in the draft. */
  function UnitWord(u: TimeUnit): string {
    match u
    case Minutes => "minutos"
    case Hours => "horas"
    case Days => "dias"
  }

  /** The stored unit word read back; None for a word the conversion does not know. */
  function ParseUnit(w: string): (r: Option<TimeUnit>)
    ensures r.Some? ==> UnitWord(r.value) == w
    ensures w == "minutos" || w == "horas" || w == "dias" ==> r.Some?
  {
    if w == "minutos" then Some(Minutes)
    else if w == "horas" then Some(Hours)
    else if w == "dias" then Some(Days)
    else None
  }

  /** A delay of `t` units in minutes (comandos/recuperacao.py:262-268). */
  function ToMinutes(t: int, u: TimeUnit): (m: int)
    ensures t > 0 ==> m >= t
    ensures m == t * MinutesPer(u)
  {
    match u
    case Minutes => t
    case Hours => t * 60
    case Days => t * 24 * 60
  }

  /** The length of one unit in minutes, written independently of the conversion. */
  function MinutesPer(u: TimeUnit): nat {
    match u
    case Minutes => 1
    case Hours => 60
    case Days => 1440
  }

  // ---------------------------------------------------------------- discount

  /**
   The range check as written, `porcentagem < 0 or porcentagem >= 100` rejects
   (comandos/recuperacao.py:201): every comparison with NaN is false, so NaN passes.
   */
  predicate DiscountInRangeAsWritten(p: Float) {
    !(Less(p, 0.0) || AtLeast(p, 100.0))
  }

  /** The intended check: a finite number with 0 <= p < 100. */
  predicate DiscountInRange(p: Float) {
    p.Finite? && 0.0 <= p.Value() < 100.0
  }

  /** The text "nan" parses and passes the check as written, though it is no percentage. */
  lemma NanDiscountPassesAsWritten()
    ensures ParseFloat("nan") == Some(NaN)
    ensures DiscountInRangeAsWritten(NaN)
    ensures !DiscountInRange(NaN)
  {
    assert Strip("nan") == "nan" by {
      StripUnpadded("nan");
    }
    assert LowerString("nan") == "nan";
  }

  /** The two checks differ on NaN only. */
  lemma DiscountChecksAgreeOnNumbers(p: Float)
    requires !p.NaN?
    ensures DiscountInRangeAsWritten(p) <==> DiscountInRange(p)
  {
  }

  /** Which range check the discount step applies: the program's, or the intended one. */
  datatype RangeCheck = AsWritten | Corrected

  predicate Passes(check: RangeCheck, p: Float) {
    match check
    case AsWritten => DiscountInRangeAsWritten(p)
    case Corrected => DiscountInRange(p)
  }

  /** What a passing discount can be: a number in [0, 100), or also NaN under the check as written. */
  predicate Admissible(check: RangeCheck, p: Float) {
    DiscountInRange(p) || (check == AsWritten && p.NaN?)
  }

  /** The check as written lets through the numbers in [0, 100) and NaN, and nothing else. */
  lemma PassesIff(check: RangeCheck, p: Float)
    ensures Passes(check, p) <==> Admissible(check, p)
  {
  }

  /**
   The discount typed by the admin (comandos/recuperacao.py:199-205): a comma
   may stand for the decimal point; accepted iff it parses and passes `check`,
   and then it is the parsed number itself.
   */
  function DiscountInput(text: string, check: RangeCheck): (r: Option<Float>)
    ensures var f := ParseFloat(ReplaceChar(text, ',', '.'));
      && (r.Some? <==> f.Some? && Passes(check, f.value))
      && (r.Some? ==> r == f)
    ensures r.Some? ==> Admissible(check, r.value)
  {
    PassesIffCases(check);
    match ParseFloat(ReplaceChar(text, ',', '.'))
    case None => None
    case Some(p) => if Passes(check, p) then Some(p) else None
  }

  /** `PassesIff` for every float at once. */
  lemma PassesIffCases(check: RangeCheck)
    ensures forall p :: Passes(check, p) <==> Admissible(check, p)
  {
    forall p {
      PassesIff(check, p);
    }
  }

  /** "nan" is stored as NaN by the program and refused by the corrected check. */
  lemma NanDiscountInput()
    ensures DiscountInput("nan", AsWritten) == Some(NaN)
    ensures DiscountInput("nan", Corrected) == None
  {
    NanDiscountPassesAsWritten();
    assert ReplaceChar("nan", ',', '.') == "nan";
  }

  lemma ReplaceAbsent(s: string, from: char, to: char)
    requires from !in s
    ensures ReplaceChar(s, from, to) == s
  {
  }

  /** A whole percentage typed as digits is accepted, as that whole number, exactly when it lies in [0, 100), under either check. */
  lemma WholePercentAccepted(n: int, check: RangeCheck)
    ensures DiscountInput(IntToString(n), check) == (if 0 <= n < 100 then Some(Finite(false, n, 0)) else None)
  {
    var s := IntToString(n);
    assert ',' !in s by {
      if n < 0 {
        assert forall i :: 1 <= i < |s| ==> s[i] == NatToString(-n)[i - 1];
      }
    }
    ReplaceAbsent(s, ',', '.');
    ParseFloatOfIntToString(n);
    var f := ParseFloat(s).value;
    assert f.Finite? && f.Value() == n as real;
    DiscountChecksAgreeOnNumbers(f);
    assert Passes(check, f) <==> 0 <= n < 100;
  }

  // ---------------------------------------------------------------- delay

  /**
   The delay typed by the admin in the chosen unit (comandos/recuperacao.py:255-270):
   accepted iff it parses as an integer and is positive; the result is in minutes.
   */
  function DelayInput(text: string, u: TimeUnit): (r: Option<int>)
    ensures r.Some? <==> ParseInt(text).Some? && ParseInt(text).value > 0
    ensures r.Some? ==> r.value > 0 && r.value == ParseInt(text).value * MinutesPer(u)
  {
    match ParseInt(text)
    case None => None
    case Some(t) => if t <= 0 then None else Some(ToMinutes(t, u))
  }

  /** A positive count typed in digits is read back and converted. */
  lemma DelayOfTypedCount(t: int, u: TimeUnit)
    requires t > 0
    ensures DelayInput(IntToString(t), u) == Some(t * MinutesPer(u))
  {
    ParseIntOfIntToString(t);
  }

  /**
   The label of a delay in minutes shown in the listing and in the delete
   buttons (comandos/recuperacao.py:86-88, repeated at 111-113).
   */
  function FormatDelay(d: int): string {
    var shown := if d < 60 then IntToString(d) + "min" else IntToString(d / 60) + "h";
    if d >= 1440 then IntToString(d / 1440) + "d" else shown
  }

  /** The label picks minutes below an hour, whole hours below a day and whole days from a day on. */
  lemma FormatDelayRanges(d: int)
    ensures d < 60 ==> FormatDelay(d) == IntToString(d) + "min"
    ensures 60 <= d < 1440 ==> FormatDelay(d) == IntToString(d / 60) + "h"
    ensures d >= 1440 ==> FormatDelay(d) == IntToString(d / 1440) + "d"
  {
  }

  /**
   A delay entered as t minutes (t < 60), t hours (t < 24) or t days is
   labelled with the same number and unit in the listing.
   */
  lemma FormatShowsEnteredDelay(t: int, u: TimeUnit)
    requires t > 0
    requires u == Minutes ==> t < 60
    requires u == Hours ==> t < 24
    ensures FormatDelay(ToMinutes(t, u)) == IntToString(t) + (match u case Minutes => "min" case Hours => "h" case Days => "d")
  {
    match u
    case Minutes =>
    case Hours =>
      assert t * 60 / 60 == t;
    case Days =>
      assert t * 24 * 60 == t * 1440;
      assert t * 1440 / 1440 == t;
  }

  // ---------------------------------------------------------------- callback data

  const CancelData: string := "cancelar"

  /** The callback data of a unit button (comandos/recuperacao.py:211-213). */
  function UnitCallback(u: TimeUnit): string {
    "tempo_" + UnitWord(u)
  }

  /** The unit word read from a unit button's data, `data.split('_')[1]` (comandos/recuperacao.py:237). */
  function UnitFromCallback(data: string): Option<string> {
    SecondField(data, '_')
  }

  /** Every unit button is read back as its own unit. */
  lemma UnitCallbackRoundTrip(u: TimeUnit)
    ensures UnitFromCallback(UnitCallback(u)) == Some(UnitWord(u))
    ensures ParseUnit(UnitWord(u)) == Some(u)
  {
    SecondFieldOf("tempo", '_', UnitWord(u));
    assert "tempo" + ['_'] + UnitWord(u) == UnitCallback(u);
  }

  /** The callback data of the delete button of a step (comandos/recuperacao.py:118). */
  function DeleteCallback(id: int): string {
    "del_" + IntToString(id)
  }

  /** `int(data.split('_')[1])` (comandos/recuperacao.py:365); None where it raises. */
  function ParseDeleteId(data: string): Option<int> {
    match SecondField(data, '_')
    case None => None
    case Some(field) => ParseInt(field)
  }

  /** Every delete button is read back as the id of its step. */
  lemma DeleteCallbackRoundTrip(id: int)
    ensures ParseDeleteId(DeleteCallback(id)) == Some(id)
  {
    var digits := IntToString(id);
    assert '_' !in digits by {
      if id < 0 {
        assert forall i :: 1 <= i < |digits| ==> digits[i] == NatToString(-id)[i - 1];
      }
    }
    SecondFieldOf("del", '_', digits);
    assert "del" + ['_'] + digits == DeleteCallback(id);
    ParseIntOfIntToString(id);
  }

  // ---------------------------------------------------------------- message capture

  /**
   An incoming chat message: its text, the photo sizes (file ids), a video, a
   caption, and whether it is a bot command (a text starting with a command
   such as "/start", which the dialog's message handlers filter out).
   */
  datatype Msg = Msg(text: Option<string>, photo: seq<string>, video: Option<string>, caption: Option<string>,
                     command: bool)

  /** Python truthiness of an optional string. */
  predicate Truthy(o: Option<string>) {
    o.Some? && |o.value| > 0
  }

  datatype Captured = Captured(media: Option<Media>, text: Option<string>)

  /**
   What the content step saves from a message (comandos/recuperacao.py:148-178);
   None when the message is refused.
   */
  function Capture(m: Msg): (r: Option<Captured>)
    // refused exactly when there is no photo, no video and no text
    ensures r.None? <==> |m.photo| == 0 && m.video.None? && !Truthy(m.text)
    // a photo wins over a video, which wins over text; the largest photo size is kept
    ensures |m.photo| > 0 ==> r.Some? && r.value.media == Some(Media(m.photo[|m.photo| - 1], "photo"))
    ensures |m.photo| == 0 && m.video.Some? ==> r.Some? && r.value.media == Some(Media(m.video.value, "video"))
    ensures |m.photo| == 0 && m.video.None? ==> r.None? || r.value.media.None?
    // a caption replaces the saved text; otherwise only a text-only message saves text
    ensures r.Some? && Truthy(m.caption) ==> r.value.text == m.caption
    ensures r.Some? && !Truthy(m.caption) ==> r.value.text == (if r.value.media.None? then m.text else None)
  {
    var base :=
      if |m.photo| > 0 then Some(Captured(Some(Media(m.photo[|m.photo| - 1], "photo")), None))
      else if m.video.Some? then Some(Captured(Some(Media(m.video.value, "video")), None))
      else if Truthy(m.text) then Some(Captured(None, m.text))
      else None;
    match base
    case None => None
    case Some(b) => Some(if Truthy(m.caption) then b.(text := m.caption) else b)
  }

  // ---------------------------------------------------------------- menu

  datatype MenuItem = ViewItem(count: nat) | CreateItem | RemoveItem | CancelItem

  function MenuData(item: MenuItem): string {
    match item
    case ViewItem(_) => "ver_recuperacoes"
    case CreateItem => "criar_recuperacao"
    case RemoveItem => "remover_recuperacao"
    case CancelItem => CancelData
  }

  /** The main menu for `count` stored steps (comandos/recuperacao.py:30-39, repeated at 336-344). */
  function MenuItems(count: nat): (items: seq<MenuItem>)
    ensures |items| >= 2 && items[|items| - 1] == CancelItem
    ensures CreateItem in items
    ensures ViewItem(count) in items <==> count > 0
    ensures RemoveItem in items <==> count > 0
    ensures forall i :: 0 <= i < |items| && items[i].ViewItem? ==> items[i].count == count
    ensures forall i, j :: 0 <= i < j < |items| ==> items[i] != items[j]
  {
    if count > 0 then [ViewItem(count), CreateItem, RemoveItem, CancelItem] else [CreateItem, CancelItem]
  }

  function MenuCallbacks(count: nat): (r: seq<string>)
    ensures |r| == |MenuItems(count)|
    ensures forall i :: 0 <= i < |r| ==> r[i] == MenuData(MenuItems(count)[i])
  {
    var items := MenuItems(count);
    seq(|items|, i requires 0 <= i < |items| => MenuData(items[i]))
  }
}

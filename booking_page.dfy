/** The public booking page: its own list of services, the four-step wizard
    with the guards on its "Continue" buttons, and the calendar of the next
    three weeks without Sundays. */
module BookingPage {
  import opened Common

  /** A service card of the page. */
  datatype ServiceCard = ServiceCard(id: string, name: string, description: string, price: int, duration: string)

  /** The page's `services`: six cards, priced independently of the
      catalogue of `SERVICES`. */
  const PageServices: seq<ServiceCard> := [
    ServiceCard("classique", "Extension Classique", "Naturel & élégant", 80, "1h30"),
    ServiceCard("hybride", "Extension Hybride", "L'équilibre parfait", 100, "2h"),
    ServiceCard("volume", "Volume Russe", "Intense & glamour", 120, "2h30"),
    ServiceCard("mega-volume", "Mega Volume", "Drama & impact", 150, "3h"),
    ServiceCard("remplissage-2s", "Remplissage 2 semaines", "Entretien régulier", 55, "1h"),
    ServiceCard("remplissage-3s", "Remplissage 3 semaines", "Entretien standard", 65, "1h15")]

  /** No two cards share an id. */
  lemma PageServiceIdsDistinct()
    ensures |PageServices| == 6
    ensures forall i, j :: 0 <= i < j < |PageServices| ==> PageServices[i].id != PageServices[j].id
  {
    var ids := seq(|PageServices|, i requires 0 <= i < |PageServices| => PageServices[i].id);
    assert ids == ["classique", "hybride", "volume", "mega-volume", "remplissage-2s", "remplissage-3s"];
    assert forall i, j :: 0 <= i < j < |ids| ==> ids[i][0] != ids[j][0] || |ids[i]| != |ids[j]| || ids[i][12] != ids[j][12];
  }

  /** `services.find(s => s.id === selectedService)` over a list of cards. */
  function FindCard(cards: seq<ServiceCard>, selected: Option<string>): (r: Option<ServiceCard>)
    ensures r.None? <==> selected.None? || forall i :: 0 <= i < |cards| ==> cards[i].id != selected.value
    ensures r.Some? ==> exists k :: 0 <= k < |cards| && cards[k] == r.value && cards[k].id == selected.value
                                   && forall j :: 0 <= j < k ==> cards[j].id != selected.value
  {
    if selected.None? || cards == [] then None
    else if cards[0].id == selected.value then Some(cards[0])
    else
      var r := FindCard(cards[1..], selected);
      if r.Some? then
        var k :| 0 <= k < |cards[1..]| && cards[1..][k] == r.value && cards[1..][k].id == selected.value
                 && forall j :: 0 <= j < k ==> cards[1..][j].id != selected.value;
        assert cards[k + 1] == r.value;
        r
      else r
  }

  /** `getSelectedServiceData`. */
  function GetSelectedServiceData(selected: Option<string>): (r: Option<ServiceCard>)
    ensures r.Some? ==> selected.Some? && r.value in PageServices && r.value.id == selected.value
  {
    FindCard(PageServices, selected)
  }

  /** As the ids are distinct, the card found is the only one with the
      selected id, whichever it is. */
  lemma SelectedServiceUnique(k: nat)
    requires k < |PageServices|
    ensures GetSelectedServiceData(Some(PageServices[k].id)) == Some(PageServices[k])
  {
    PageServiceIdsDistinct();
    var r := GetSelectedServiceData(Some(PageServices[k].id));
    var j :| 0 <= j < |PageServices| && PageServices[j] == r.value && PageServices[j].id == PageServices[k].id;
    assert j == k;
  }

  // ------------------------------------------------------------------
  // The step machine

  const FirstStep: int := 1
  const LastStep: int := 4

  /** `nextStep`: one step on, except from the last one. */
  function NextOf(step: int): (r: int)
    ensures FirstStep <= step <= LastStep ==> FirstStep <= r <= LastStep
    ensures r == step || r == step + 1
  {
    if step < LastStep then step + 1 else step
  }

  /** `prevStep`: one step back, except from the first one. */
  function PrevOf(step: int): (r: int)
    ensures FirstStep <= step <= LastStep ==> FirstStep <= r <= LastStep
    ensures r == step || r == step - 1
  {
    if step > FirstStep then step - 1 else step
  }

  /** Going back undoes going on, below the last step, and going on undoes
      going back, above the first. */
  lemma StepInverses(step: int)
    ensures FirstStep <= step < LastStep ==> PrevOf(NextOf(step)) == step
    ensures FirstStep < step <= LastStep ==> NextOf(PrevOf(step)) == step
    ensures NextOf(LastStep) == LastStep && PrevOf(FirstStep) == FirstStep
  {
  }

  /** Three steps on from the first reach the confirmation, and the
      confirmation is never left by going on. */
  lemma ThreeStepsToConfirm()
    ensures NextOf(NextOf(NextOf(FirstStep))) == LastStep
    ensures forall step :: FirstStep <= step <= LastStep ==> NextOf(NextOf(NextOf(step))) == LastStep
  {
  }

  /** The client's details typed at step 3; every field starts empty. */
  datatype ClientForm = ClientForm(firstName: string, lastName: string, email: string, phone: string, notes: string)

  const EmptyForm: ClientForm := ClientForm("", "", "", "", "")

  /** The guard of step 3's button: the four fields may not be empty; the
      notes are optional. */
  predicate FormComplete(f: ClientForm)
  {
    f.firstName != "" && f.lastName != "" && f.email != "" && f.phone != ""
  }

  /** The state of the page: the current step and what has been chosen.
      A chosen date is a day offset from the calendar. */
  class BookingWizard {
    var currentStep: int
    var selectedService: Option<string>
    var selectedDate: Option<nat>
    var selectedTime: Option<string>
    var form: ClientForm

    /** The step stays within 1..4. */
    predicate Valid()
      reads this
    {
      FirstStep <= currentStep <= LastStep
    }

    constructor()
      ensures Valid() && currentStep == FirstStep
      ensures selectedService == None && selectedDate == None && selectedTime == None && form == EmptyForm
    {
      currentStep := FirstStep;
      selectedService := None;
      selectedDate := None;
      selectedTime := None;
      form := EmptyForm;
    }

    /** Whether the current step's "Continue" button is enabled: a chosen
        service at step 1, a date and a time at step 2, a complete form at
        step 3; the confirmation has no such button. */
    predicate CanContinue()
      reads this
    {
      if currentStep == 1 then selectedService.Some? && selectedService.value != ""
      else if currentStep == 2 then selectedDate.Some? && selectedTime.Some? && selectedTime.value != ""
      else if currentStep == 3 then FormComplete(form)
      else false
    }

    method NextStep()
      requires Valid()
      modifies this
      ensures Valid() && currentStep == NextOf(old(currentStep))
      ensures selectedService == old(selectedService) && selectedDate == old(selectedDate)
      ensures selectedTime == old(selectedTime) && form == old(form)
    {
      if currentStep < LastStep {
        currentStep := currentStep + 1;
      }
    }

    method PrevStep()
      requires Valid()
      modifies this
      ensures Valid() && currentStep == PrevOf(old(currentStep))
      ensures selectedService == old(selectedService) && selectedDate == old(selectedDate)
      ensures selectedTime == old(selectedTime) && form == old(form)
    {
      if currentStep > FirstStep {
        currentStep := currentStep - 1;
      }
    }

    /** A click on "Continue": nothing happens while the button is disabled. */
    method ClickContinue()
      requires Valid()
      modifies this
      ensures Valid()
      ensures currentStep == if old(CanContinue()) then old(currentStep) + 1 else old(currentStep)
      ensures old(currentStep) == 3 && currentStep == 4 ==> FormComplete(form)
      ensures selectedService == old(selectedService) && selectedDate == old(selectedDate)
      ensures selectedTime == old(selectedTime) && form == old(form)
    {
      if CanContinue() {
        NextStep();
      }
    }

    method SelectService(id: string)
      modifies this
      ensures selectedService == Some(id)
      ensures currentStep == old(currentStep) && selectedDate == old(selectedDate)
      ensures selectedTime == old(selectedTime) && form == old(form)
    {
      selectedService := Some(id);
    }

    method SelectDate(day: nat)
      modifies this
      ensures selectedDate == Some(day)
      ensures currentStep == old(currentStep) && selectedService == old(selectedService)
      ensures selectedTime == old(selectedTime) && form == old(form)
    {
      selectedDate := Some(day);
    }

    method SelectTime(time: string)
      modifies this
      ensures selectedTime == Some(time)
      ensures currentStep == old(currentStep) && selectedService == old(selectedService)
      ensures selectedDate == old(selectedDate) && form == old(form)
    {
      selectedTime := Some(time);
    }

    method SetForm(f: ClientForm)
      modifies this
      ensures form == f
      ensures currentStep == old(currentStep) && selectedService == old(selectedService)
      ensures selectedDate == old(selectedDate) && selectedTime == old(selectedTime)
    {
      form := f;
    }
  }

  // ------------------------------------------------------------------
  // The calendar

  /** The calendar covers today and the next twenty days. */
  const CalendarSpan: nat := 21

  /** `getDay() !== 0` for the day `offset` days after a day of weekday
      `todayWeekday`. */
  predicate NotSunday(todayWeekday: int, offset: int)
  {
    (todayWeekday + offset) % 7 != 0
  }

  /** The offsets from `from` to 20 whose day is not a Sunday, ascending. */
  function CalendarFrom(todayWeekday: int, from: nat): seq<nat>
    decreases CalendarSpan - from
  {
    if from >= CalendarSpan then []
    else (if NotSunday(todayWeekday, from) then [from] else []) + CalendarFrom(todayWeekday, from + 1)
  }

  /** The calendar holds the days from `from` on that are not Sundays, each
      once, ascending, and no other. */
  lemma {:induction false} CalendarFromFacts(w: int, from: nat)
    decreases CalendarSpan - from
    ensures var r := CalendarFrom(w, from);
      (forall k :: 0 <= k < |r| ==> from <= r[k] < CalendarSpan && NotSunday(w, r[k]))
      && (forall k, l :: 0 <= k < l < |r| ==> r[k] < r[l])
      && (forall d :: from <= d < CalendarSpan && NotSunday(w, d) ==> d in r)
  {
    if from < CalendarSpan {
      CalendarFromFacts(w, from + 1);
    }
  }

  /** One of seven consecutive days is a Sunday. */
  lemma OneInSeven(n: int)
    ensures (if NotSunday(n, 0) then 1 else 0) + (if NotSunday(n, 1) then 1 else 0)
          + (if NotSunday(n, 2) then 1 else 0) + (if NotSunday(n, 3) then 1 else 0)
          + (if NotSunday(n, 4) then 1 else 0) + (if NotSunday(n, 5) then 1 else 0)
          + (if NotSunday(n, 6) then 1 else 0) == 6
  {
    var q := n / 7;
    var r := n % 7;
    assert n == 7 * q + r;
  }

  /** Any seven consecutive days hold exactly one Sunday. */
  lemma OneSundayAWeek(w: int, from: nat)
    requires from + 7 <= CalendarSpan
    ensures |CalendarFrom(w, from)| == |CalendarFrom(w, from + 7)| + 6
  {
    OneInSeven(w + from);
    assert |CalendarFrom(w, from)| == |CalendarFrom(w, from + 1)| + if NotSunday(w + from, 0) then 1 else 0;
    assert |CalendarFrom(w, from + 1)| == |CalendarFrom(w, from + 2)| + if NotSunday(w + from, 1) then 1 else 0;
    assert |CalendarFrom(w, from + 2)| == |CalendarFrom(w, from + 3)| + if NotSunday(w + from, 2) then 1 else 0;
    assert |CalendarFrom(w, from + 3)| == |CalendarFrom(w, from + 4)| + if NotSunday(w + from, 3) then 1 else 0;
    assert |CalendarFrom(w, from + 4)| == |CalendarFrom(w, from + 5)| + if NotSunday(w + from, 4) then 1 else 0;
    assert |CalendarFrom(w, from + 5)| == |CalendarFrom(w, from + 6)| + if NotSunday(w + from, 5) then 1 else 0;
    assert |CalendarFrom(w, from + 6)| == |CalendarFrom(w, from + 7)| + if NotSunday(w + from, 6) then 1 else 0;
  }

  /** Three weeks hold three Sundays: whatever today is, the calendar offers
      exactly 18 days. */
  lemma CalendarHasEighteenDays(w: int)
    ensures |CalendarFrom(w, 0)| == 18
  {
    OneSundayAWeek(w, 0);
    OneSundayAWeek(w, 7);
    OneSundayAWeek(w, 14);
  }

  /** One turn of the calendar loop: the day `i` is taken or skipped. */
  lemma CalendarStep(w: int, i: nat, days: seq<nat>)
    requires i < CalendarSpan
    ensures days + CalendarFrom(w, i) == (if NotSunday(w, i) then days + [i] else days) + CalendarFrom(w, i + 1)
  {
    if NotSunday(w, i) {
      assert days + ([i] + CalendarFrom(w, i + 1)) == days + [i] + CalendarFrom(w, i + 1);
    } else {
      assert [] + CalendarFrom(w, i + 1) == CalendarFrom(w, i + 1);
    }
  }

  /** Past the twentieth day nothing is left to add. */
  lemma CalendarEnd(w: int, days: seq<nat>)
    ensures days + CalendarFrom(w, CalendarSpan) == days
  {
  }

  /** `generateCalendarDays`: the day offsets 0 to 20, Sundays skipped, in
      order. `todayWeekday` is `today.getDay()`. */
  method GenerateCalendarDays(todayWeekday: int) returns (days: seq<nat>)
    ensures days == CalendarFrom(todayWeekday, 0)
  {
    days := [];
    var i: nat := 0;
    while i < CalendarSpan
      invariant i <= CalendarSpan
      invariant days + CalendarFrom(todayWeekday, i) == CalendarFrom(todayWeekday, 0)
    {
      CalendarStep(todayWeekday, i, days);
      if NotSunday(todayWeekday, i) {
        days := days + [i];
      }
      i := i + 1;
    }
    CalendarEnd(todayWeekday, days);
  }
}

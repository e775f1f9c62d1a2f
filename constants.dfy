/** The fixed data of the browser-side engine: the half-hour slot table, the
    opening hours, the service catalogue and the admin credentials. */
module Constants {
  import opened Common
  import opened Text

  /** `TIME_SLOTS`: every half hour from 08:00 to 18:30, written as the
      four rows of the source. */
  const SlotRow1: seq<string> := ["08:00", "08:30", "09:00", "09:30", "10:00", "10:30"]
  const SlotRow2: seq<string> := ["11:00", "11:30", "12:00", "12:30", "13:00", "13:30"]
  const SlotRow3: seq<string> := ["14:00", "14:30", "15:00", "15:30", "16:00", "16:30"]
  const SlotRow4: seq<string> := ["17:00", "17:30", "18:00", "18:30"]
  const TimeSlots: seq<string> := SlotRow1 + SlotRow2 + SlotRow3 + SlotRow4

  /** The minute of day of the `i`-th slot: 08:00 plus `i` half hours. */
  function SlotMinute(i: int): int
  {
    480 + 30 * i
  }

  /** The `i`-th entry of `s` is a clock string naming `start + 30 * i`. */
  predicate HalfHoursFrom(s: seq<string>, start: int)
  {
    forall i :: 0 <= i < |s| ==> IsHhMm(s[i]) && ParseHhMm(s[i]) == Some(start + 30 * i)
  }

  /** Every entry of `s` has 0 or 3 as its tens of minutes. */
  predicate OnHalfHours(s: seq<string>)
  {
    forall i :: 0 <= i < |s| ==> |s[i]| == 5 && (s[i][3] == '0' || s[i][3] == '3')
  }

  lemma OnHalfHoursConcat(a: seq<string>, b: seq<string>)
    requires OnHalfHours(a) && OnHalfHours(b)
    ensures OnHalfHours(a + b)
  {
    var c := a + b;
    forall i | 0 <= i < |c| ensures |c[i]| == 5 && (c[i][3] == '0' || c[i][3] == '3') {
      if i < |a| { assert c[i] == a[i]; } else { assert c[i] == b[i - |a|]; }
    }
  }

  /** The minutes of every entry of the table are 00 or 30. */
  lemma TimeSlotsOnHalfHours()
    ensures OnHalfHours(TimeSlots)
  {
    assert OnHalfHours(SlotRow1) && OnHalfHours(SlotRow2) && OnHalfHours(SlotRow3) && OnHalfHours(SlotRow4);
    OnHalfHoursConcat(SlotRow1, SlotRow2);
    OnHalfHoursConcat(SlotRow1 + SlotRow2, SlotRow3);
    OnHalfHoursConcat(SlotRow1 + SlotRow2 + SlotRow3, SlotRow4);
  }

  /** Two runs of half hours, the second starting where the first stops,
      make one run. */
  lemma HalfHoursConcat(a: seq<string>, b: seq<string>, start: int)
    requires HalfHoursFrom(a, start) && HalfHoursFrom(b, start + 30 * |a|)
    ensures HalfHoursFrom(a + b, start)
  {
    var c := a + b;
    forall i | 0 <= i < |c| ensures IsHhMm(c[i]) && ParseHhMm(c[i]) == Some(start + 30 * i) {
      if i < |a| {
        assert c[i] == a[i];
      } else {
        assert c[i] == b[i - |a|];
      }
    }
  }

  lemma Row1Table()
    ensures HalfHoursFrom(SlotRow1, 480)
  {
    assert ParseHhMm(SlotRow1[0]) == Some(480) && ParseHhMm(SlotRow1[1]) == Some(510);
    assert ParseHhMm(SlotRow1[2]) == Some(540) && ParseHhMm(SlotRow1[3]) == Some(570);
    assert ParseHhMm(SlotRow1[4]) == Some(600) && ParseHhMm(SlotRow1[5]) == Some(630);
  }

  lemma Row2Table()
    ensures HalfHoursFrom(SlotRow2, 660)
  {
    assert ParseHhMm(SlotRow2[0]) == Some(660) && ParseHhMm(SlotRow2[1]) == Some(690);
    assert ParseHhMm(SlotRow2[2]) == Some(720) && ParseHhMm(SlotRow2[3]) == Some(750);
    assert ParseHhMm(SlotRow2[4]) == Some(780) && ParseHhMm(SlotRow2[5]) == Some(810);
  }

  lemma Row3Table()
    ensures HalfHoursFrom(SlotRow3, 840)
  {
    assert ParseHhMm(SlotRow3[0]) == Some(840) && ParseHhMm(SlotRow3[1]) == Some(870);
    assert ParseHhMm(SlotRow3[2]) == Some(900) && ParseHhMm(SlotRow3[3]) == Some(930);
    assert ParseHhMm(SlotRow3[4]) == Some(960) && ParseHhMm(SlotRow3[5]) == Some(990);
  }

  lemma Row4Table()
    ensures HalfHoursFrom(SlotRow4, 1020)
  {
    assert ParseHhMm(SlotRow4[0]) == Some(1020) && ParseHhMm(SlotRow4[1]) == Some(1050);
    assert ParseHhMm(SlotRow4[2]) == Some(1080) && ParseHhMm(SlotRow4[3]) == Some(1110);
  }

  /** The table holds 22 well-formed clock strings, the `i`-th naming the
      minute of day `SlotMinute(i)`. */
  lemma TimeSlotsTable()
    ensures |TimeSlots| == 22
    ensures forall i :: 0 <= i < |TimeSlots| ==>
      IsHhMm(TimeSlots[i]) && ParseHhMm(TimeSlots[i]) == Some(SlotMinute(i))
  {
    Row1Table();
    Row2Table();
    Row3Table();
    Row4Table();
    HalfHoursConcat(SlotRow1, SlotRow2, 480);
    HalfHoursConcat(SlotRow1 + SlotRow2, SlotRow3, 480);
    HalfHoursConcat(SlotRow1 + SlotRow2 + SlotRow3, SlotRow4, 480);
    assert HalfHoursFrom(TimeSlots, 480);
  }

  /** Each entry is the clock string the backend's slot loop prints for the
      same minute of day. */
  lemma TimeSlotIsFormatted(i: nat)
    requires i < |TimeSlots|
    ensures TimeSlots[i] == FormatHhMm(SlotMinute(i))
  {
    TimeSlotsTable();
    TimeSlotsOnHalfHours();
    var s := TimeSlots[i];
    assert DigitValue(s[3]) < 6;
    FormatParse(s);
  }

  /** From "08:00" to "18:30", strictly ascending, 30 minutes apart. */
  lemma TimeSlotsAscending()
    ensures TimeSlots[0] == "08:00" && TimeSlots[|TimeSlots| - 1] == "18:30"
    ensures forall i, j :: 0 <= i < j < |TimeSlots| ==>
      ParseHhMm(TimeSlots[i]).Some? && ParseHhMm(TimeSlots[j]).Some?
      && ParseHhMm(TimeSlots[i]).value < ParseHhMm(TimeSlots[j]).value
    ensures forall i, j :: 0 <= i && j == i + 1 && j < |TimeSlots| ==>
      ParseHhMm(TimeSlots[i]).Some? && ParseHhMm(TimeSlots[j]) == Some(ParseHhMm(TimeSlots[i]).value + 30)
  {
    TimeSlotsTable();
    assert TimeSlots[0] == SlotRow1[0] && TimeSlots[21] == SlotRow4[3];
  }

  /** `BUSINESS_INFO.hours`: open at 8, close at 21. */
  const OpenHour: int := 8
  const CloseHour: int := 21

  /** Every slot lies within the opening hours, and the last one leaves
      exactly the general duration of 2h30 before closing. */
  lemma SlotsWithinHours()
    ensures forall i :: 0 <= i < |TimeSlots| ==>
      ParseHhMm(TimeSlots[i]).Some?
      && OpenHour * 60 <= ParseHhMm(TimeSlots[i]).value && ParseHhMm(TimeSlots[i]).value + 150 <= CloseHour * 60
    ensures ParseHhMm(TimeSlots[21]) == Some(CloseHour * 60 - 150)
  {
    TimeSlotsTable();
  }

  /** An entry of `SERVICES`: its id, title, price, duration label and
      whether a deposit is asked. */
  datatype CatalogueEntry = CatalogueEntry(id: string, title: string, price: int, duration: string,
                                           depositRequired: bool)

  const Services: seq<CatalogueEntry> := [
    CatalogueEntry("classique", "Extension Classique", 75, "2h30", true),
    CatalogueEntry("hybride", "Extension Hybride", 85, "2h30", true),
    CatalogueEntry("volume", "Volume Russe", 95, "2h30", true),
    CatalogueEntry("mega-volume", "Mega Volume", 110, "2h30", true),
    CatalogueEntry("remplissage-2s", "Remplissage 2 semaines", 45, "1h30", false),
    CatalogueEntry("remplissage-3s", "Remplissage 3 semaines", 55, "1h45", false),
    CatalogueEntry("depose", "Dépose", 25, "45min", false)]

  /** No two entries of `SERVICES` share an id. */
  lemma ServiceIdsDistinct()
    ensures |Services| == 7
    ensures forall i, j :: 0 <= i < j < |Services| ==> Services[i].id != Services[j].id
  {
    var ids := seq(|Services|, i requires 0 <= i < |Services| => Services[i].id);
    assert ids == ["classique", "hybride", "volume", "mega-volume", "remplissage-2s", "remplissage-3s", "depose"];
    assert forall i, j :: 0 <= i < j < |ids| ==> ids[i][0] != ids[j][0] || |ids[i]| != |ids[j]| || ids[i][12] != ids[j][12];
  }

  /** `ADMIN_CREDENTIALS`. */
  const AdminUsername: string := "daleela"
  const AdminPassword: string := "dalee"
}

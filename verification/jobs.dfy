/**
 * The job that the engine's run receives and its validation
 * (lib/engine.js, lines 59-134), and find_plans, which extracts the
 * RatePlan elements from the decoded message. Every job value enters as
 * its JavaScript string form `String(x)`, so a missing max child
 * occupancy reads "undefined"; a list that is not an array is None.
 */
module Jobs {
  import opened Wrappers
  import opened Errors
  import opened Text
  import opened Dates
  import opened Tree
  import Guests

  /**
   * The job as the caller passes it. A missing booking_date makes run call
   * utildate.date_today, which lib/utildate.js does not define: a TypeError.
   */
  datatype JobInput = JobInput(
    arrival: string, departure: string, numAdults: string, childrenAges: Option<seq<string>>,
    bookingDate: Option<string>, occupancy: Option<seq<string>>)

  /** A validated job: the stay, the guests, and the inventory occupancy table keyed by room code. */
  datatype Job = Job(
    arrival: Date, departure: Date, adults: nat, children: seq<nat>, booking: Date,
    invOcc: map<string, Guests.InvOcc>)

  /** Appending keeps a list free of duplicates exactly when the new element is new. */
  lemma NoDupsSnoc<T>(s: seq<T>, x: T)
    ensures NoDups(s + [x]) <==> NoDups(s) && x !in s
  {
    assert forall i :: 0 <= i < |s| ==> (s + [x])[i] == s[i];
    if x in s {
      var i :| 0 <= i < |s| && s[i] == x;
      assert (s + [x])[i] == (s + [x])[|s|];
    }
  }

  // ------------------------------------------------------------ children

  /** The check of one child age: one to three digits, read as a number. */
  function AgeEach(ages: seq<string>): (r: seq<Result<nat>>)
    ensures |r| == |ages|
    ensures forall i :: 0 <= i < |ages| ==>
      r[i] == if IsUpToThreeDigits(ages[i]) then Ok(DigitsValue(ages[i])) else Err(EngineErr(BadChildAge(i)))
  {
    seq(|ages|, i requires 0 <= i < |ages| =>
      if IsUpToThreeDigits(ages[i]) then Ok(DigitsValue(ages[i])) else Err(EngineErr(BadChildAge(i))))
  }

  /** The loop over children_ages: every age as a number, or the index of the first invalid one. */
  function ChildAges(ages: seq<string>): (r: Result<seq<nat>>)
    ensures r.Ok? <==> forall i :: 0 <= i < |ages| ==> IsUpToThreeDigits(ages[i])
    ensures r.Ok? ==> |r.value| == |ages| && forall i :: 0 <= i < |ages| ==> r.value[i] == DigitsValue(ages[i])
    ensures r.Err? ==> exists k :: (0 <= k < |ages| && !IsUpToThreeDigits(ages[k]) &&
      (forall j :: 0 <= j < k ==> IsUpToThreeDigits(ages[j])) && r.error == EngineErr(BadChildAge(k)))
  {
    var each := AgeEach(ages);
    var r := Collect(each);
    if r.Err? then
      var k :| FirstErr(each, k) && r.error == each[k].error;
      assert forall j :: 0 <= j < k ==> each[j].Ok?;
      r
    else r
  }

  // ----------------------------------------------------------- occupancy

  const Undefined := "undefined"

  /** Five consecutive values of the occupancy array: code, min, std, max and max child occupancy. */
  datatype OccRow = OccRow(code: string, min: string, std: string, max: string, maxChildren: string)

  function Rows(occ: seq<string>): (r: seq<OccRow>)
    requires |occ| % 5 == 0
    ensures |r| == |occ| / 5
    ensures forall i :: 0 <= i < |r| ==>
      r[i] == OccRow(occ[5 * i], occ[5 * i + 1], occ[5 * i + 2], occ[5 * i + 3], occ[5 * i + 4])
    decreases |occ|
  {
    if |occ| == 0 then []
    else
      var rest := Rows(occ[5..]);
      assert forall i :: 1 <= i <= |rest| ==> occ[5..][5 * (i - 1)] == occ[5 * i];
      [OccRow(occ[0], occ[1], occ[2], occ[3], occ[4])] + rest
  }

  /** A row the validation accepts (apart from its code): positive min <= std <= max, and a child limit up to max. */
  predicate RowOk(row: OccRow) {
    IsPositiveInt(row.min) && IsPositiveInt(row.std) && IsPositiveInt(row.max) &&
    (row.maxChildren == Undefined || IsNonNegInt(row.maxChildren)) &&
    DigitsValue(row.min) <= DigitsValue(row.std) <= DigitsValue(row.max) &&
    (row.maxChildren != Undefined ==> DigitsValue(row.maxChildren) <= DigitsValue(row.max))
  }

  /** The numbers of a row. */
  function RowOcc(row: OccRow): Guests.InvOcc
    requires RowOk(row)
  {
    Guests.InvOcc(DigitsValue(row.min), DigitsValue(row.std), DigitsValue(row.max),
      if row.maxChildren == Undefined then None else Some(DigitsValue(row.maxChildren)))
  }

  /** The checks of one row after its code, in the order engine.js makes them. */
  function RowCheck(row: OccRow): (r: Outcome)
    ensures r.Pass? <==> RowOk(row)
    ensures r.Pass? ==> Guests.InvOccOk(RowOcc(row))
    ensures !IsPositiveInt(row.min) ==> r == Fail(EngineErr(OccBadMin))
    ensures IsPositiveInt(row.min) && !IsPositiveInt(row.std) ==> r == Fail(EngineErr(OccBadStd))
    ensures IsPositiveInt(row.min) && IsPositiveInt(row.std) && !IsPositiveInt(row.max) ==> r == Fail(EngineErr(OccBadMax))
    ensures IsPositiveInt(row.min) && IsPositiveInt(row.std) && IsPositiveInt(row.max) ==>
      && (row.maxChildren != Undefined && !IsNonNegInt(row.maxChildren) ==> r == Fail(EngineErr(OccBadMaxChildren)))
      && (((row.maxChildren == Undefined || IsNonNegInt(row.maxChildren)) &&
           !(DigitsValue(row.min) <= DigitsValue(row.std) <= DigitsValue(row.max))) ==> r == Fail(EngineErr(OccOrder)))
    ensures (IsPositiveInt(row.min) && IsPositiveInt(row.std) && IsPositiveInt(row.max) &&
             DigitsValue(row.min) <= DigitsValue(row.std) <= DigitsValue(row.max) &&
             row.maxChildren != Undefined && IsNonNegInt(row.maxChildren) &&
             DigitsValue(row.maxChildren) > DigitsValue(row.max)) ==>
      r == Fail(EngineErr(OccChildrenAboveMax))
  {
    if !IsPositiveInt(row.min) then Fail(EngineErr(OccBadMin))
    else if !IsPositiveInt(row.std) then Fail(EngineErr(OccBadStd))
    else if !IsPositiveInt(row.max) then Fail(EngineErr(OccBadMax))
    else if row.maxChildren != Undefined && !IsNonNegInt(row.maxChildren) then Fail(EngineErr(OccBadMaxChildren))
    else if !(DigitsValue(row.min) <= DigitsValue(row.std)) || !(DigitsValue(row.std) <= DigitsValue(row.max)) then
      Fail(EngineErr(OccOrder))
    else if row.maxChildren != Undefined && DigitsValue(row.maxChildren) > DigitsValue(row.max) then
      Fail(EngineErr(OccChildrenAboveMax))
    else Pass
  }

  function Codes(rows: seq<OccRow>): (r: seq<string>)
    ensures |r| == |rows| && forall i :: 0 <= i < |rows| ==> r[i] == rows[i].code
  {
    seq(|rows|, i requires 0 <= i < |rows| => rows[i].code)
  }

  /**
   * The occupancy loop: the table keyed by room code, built row by row; a
   * row fails on an empty code, on a code seen before, or on its numbers.
   */
  function OccTable(rows: seq<OccRow>): (r: Result<map<string, Guests.InvOcc>>)
    ensures r.Ok? <==> (forall i :: 0 <= i < |rows| ==> rows[i].code != "" && RowOk(rows[i])) && NoDups(Codes(rows))
    ensures r.Ok? ==> forall i :: 0 <= i < |rows| ==> rows[i].code in r.value && r.value[rows[i].code] == RowOcc(rows[i])
    ensures r.Ok? ==> forall k :: k in r.value ==> k in Codes(rows) && k != "" && Guests.InvOccOk(r.value[k])
  {
    if |rows| == 0 then Ok(map[])
    else
      var n := |rows| - 1;
      var prefix := rows[..n];
      var row := rows[n];
      assert Codes(rows) == Codes(prefix) + [row.code];
      NoDupsSnoc(Codes(prefix), row.code);
      var t := OccTable(prefix);
      if t.Err? then Err(t.error)
      else if row.code == "" then Err(EngineErr(OccEmptyCode))
      else if row.code in t.value then Err(EngineErr(OccNotUnique))
      else if RowCheck(row).Fail? then Err(RowCheck(row).error)
      else Ok(t.value[row.code := RowOcc(row)])
  }

  /** Why the occupancy loop stops at `row`, given the codes of the rows before it: None when the row passes. */
  function RowError(row: OccRow, seen: seq<string>): Option<Error> {
    if row.code == "" then Some(EngineErr(OccEmptyCode))
    else if row.code in seen then Some(EngineErr(OccNotUnique))
    else if !RowOk(row) then Some(RowCheck(row).error)
    else None
  }

  /** The rows before `i` all pass the loop. */
  predicate PassedUpTo(rows: seq<OccRow>, i: nat)
    requires i <= |rows|
  {
    forall j :: 0 <= j < i ==> RowError(rows[j], Codes(rows[..j])).None?
  }

  lemma {:induction false} PassedOk(rows: seq<OccRow>)
    requires PassedUpTo(rows, |rows|)
    ensures OccTable(rows).Ok?
    decreases |rows|
  {
    if |rows| > 0 {
      var n := |rows| - 1;
      var prefix := rows[..n];
      assert forall j :: 0 <= j <= n ==> prefix[..j] == rows[..j];
      assert PassedUpTo(prefix, n);
      PassedOk(prefix);
      assert RowError(rows[n], Codes(prefix)).None?;
    }
  }

  /**
   * The loop throws the error of the first row that fails it: every row
   * before `i` passes and row `i` fails, so the table is that row's error.
   */
  lemma {:induction false} OccTableFirstError(rows: seq<OccRow>, i: nat)
    requires i < |rows| && PassedUpTo(rows, i) && RowError(rows[i], Codes(rows[..i])).Some?
    ensures OccTable(rows) == Err(RowError(rows[i], Codes(rows[..i])).value)
    decreases |rows|
  {
    var n := |rows| - 1;
    var prefix := rows[..n];
    assert forall j :: 0 <= j <= n ==> prefix[..j] == rows[..j] by {
      forall j | 0 <= j <= n ensures prefix[..j] == rows[..j] {
        assert prefix[..j] == rows[..n][..j];
      }
    }
    if i == n {
      assert PassedUpTo(prefix, n);
      PassedOk(prefix);
      var t := OccTable(prefix);
      assert Codes(prefix) == Codes(rows[..n]);
      assert rows[n].code in t.value <==> rows[n].code in Codes(prefix);
    } else {
      assert PassedUpTo(prefix, i);
      assert prefix[i] == rows[i];
      OccTableFirstError(prefix, i);
    }
  }

  // ----------------------------------------------------------------- job

  /** The stay part of the job: both dates valid and departure after arrival. */
  predicate StayOk(j: JobInput) {
    IsValidDate(j.arrival) && IsValidDate(j.departure) &&
    Diff(ParseDate(j.arrival), ParseDate(j.departure)) > 0
  }

  function ValidateStay(j: JobInput): (r: Result<(Date, Date)>)
    ensures r.Ok? <==> StayOk(j)
    ensures !IsValidDate(j.arrival) ==> r == Err(EngineErr(BadArrival))
    ensures IsValidDate(j.arrival) && !IsValidDate(j.departure) ==> r == Err(EngineErr(BadDeparture))
    ensures IsValidDate(j.arrival) && IsValidDate(j.departure) && !StayOk(j) ==> r == Err(EngineErr(TimeTravel))
    ensures r.Ok? ==> r.value == (ParseDate(j.arrival), ParseDate(j.departure)) && Diff(r.value.0, r.value.1) >= 1
  {
    if !IsValidDate(j.arrival) then Err(EngineErr(BadArrival)) else
    :- Need(IsValidDate(j.departure), EngineErr(BadDeparture));
    var arr, dep := ParseDate(j.arrival), ParseDate(j.departure);
    :- Need(Diff(arr, dep) > 0, EngineErr(TimeTravel));
    Ok((arr, dep))
  }

  /** The guest part of the job: a number of adults, a list of child ages, and someone to stay. */
  predicate GuestsOk(j: JobInput) {
    IsUpToThreeDigits(j.numAdults) &&
    j.childrenAges.Some? && (forall i :: 0 <= i < |j.childrenAges.value| ==> IsUpToThreeDigits(j.childrenAges.value[i])) &&
    DigitsValue(j.numAdults) + |j.childrenAges.value| > 0
  }

  function ValidateGuests(j: JobInput): (r: Result<(nat, seq<nat>)>)
    ensures r.Ok? <==> GuestsOk(j)
    ensures !IsUpToThreeDigits(j.numAdults) ==> r == Err(EngineErr(BadAdults))
    ensures IsUpToThreeDigits(j.numAdults) && j.childrenAges.None? ==> r == Err(EngineErr(ChildrenNotArray))
    ensures r.Ok? ==>
      r.value.0 == DigitsValue(j.numAdults) && r.value.0 + |r.value.1| >= 1 &&
      |r.value.1| == |j.childrenAges.value| &&
      forall i :: 0 <= i < |r.value.1| ==> r.value.1[i] == DigitsValue(j.childrenAges.value[i])
  {
    if !IsUpToThreeDigits(j.numAdults) then Err(EngineErr(BadAdults)) else
    :- Need(j.childrenAges.Some?, EngineErr(ChildrenNotArray));
    var children :- ChildAges(j.childrenAges.value);
    var adults := DigitsValue(j.numAdults);
    :- Need(adults + |children| != 0, EngineErr(NoOccupant));
    Ok((adults, children))
  }

  /** The occupancy part of the job: groups of five values, every row valid, no code twice. */
  predicate OccupancyOk(j: JobInput) {
    j.occupancy.Some? && |j.occupancy.value| % 5 == 0 &&
    var rows := Rows(j.occupancy.value);
    (forall i :: 0 <= i < |rows| ==> rows[i].code != "" && RowOk(rows[i])) && NoDups(Codes(rows))
  }

  /** What a validated job guarantees to the matching pass. */
  predicate JobShaped(j: Job) {
    Valid(j.arrival) && Valid(j.departure) && Diff(j.arrival, j.departure) >= 1 &&
    forall k :: k in j.invOcc ==> Guests.InvOccOk(j.invOcc[k])
  }

  /** Everything the job validation demands, stated without its order. */
  predicate JobOk(j: JobInput) {
    StayOk(j) && GuestsOk(j) && j.bookingDate.Some? && IsValidDate(j.bookingDate.value) && OccupancyOk(j)
  }

  /** The job validation at the top of run, in the order of its checks. */
  function ValidateJob(j: JobInput): (r: Result<Job>)
    ensures r.Ok? <==> JobOk(j)
    ensures !StayOk(j) ==> r == ValidateStay(j).PropagateFailure()
    ensures StayOk(j) && !GuestsOk(j) ==> r == ValidateGuests(j).PropagateFailure()
    ensures StayOk(j) && GuestsOk(j) && j.bookingDate.None? ==> r == Err(TypeError)
    ensures r.Ok? ==>
      r.value.arrival == ParseDate(j.arrival) && r.value.departure == ParseDate(j.departure) &&
      r.value.booking == ParseDate(j.bookingDate.value) && Diff(r.value.arrival, r.value.departure) >= 1
    ensures r.Ok? ==>
      r.value.adults == DigitsValue(j.numAdults) && r.value.adults + |r.value.children| >= 1 &&
      |r.value.children| == |j.childrenAges.value| &&
      forall i :: 0 <= i < |r.value.children| ==> r.value.children[i] == DigitsValue(j.childrenAges.value[i])
    ensures r.Ok? ==> JobShaped(r.value) && forall k :: k in r.value.invOcc ==> k != ""
    ensures StayOk(j) && GuestsOk(j) && j.bookingDate.Some? && !IsValidDate(j.bookingDate.value) ==>
      r == Err(EngineErr(BadBookingDate))
    ensures StayOk(j) && GuestsOk(j) && j.bookingDate.Some? && IsValidDate(j.bookingDate.value) ==>
      && (!(j.occupancy.Some? && |j.occupancy.value| % 5 == 0) ==> r == Err(EngineErr(OccNotArray)))
      && (j.occupancy.Some? && |j.occupancy.value| % 5 == 0 ==>
            var t := OccTable(Rows(j.occupancy.value));
            && (t.Err? ==> r == Err(t.error))
            && (t.Ok? ==> r.Ok? && r.value.invOcc == t.value))
  {
    var stay :- ValidateStay(j);
    var guests :- ValidateGuests(j);
    :- Need(j.bookingDate.Some?, TypeError);
    :- Need(IsValidDate(j.bookingDate.value), EngineErr(BadBookingDate));
    :- Need(j.occupancy.Some? && |j.occupancy.value| % 5 == 0, EngineErr(OccNotArray));
    var table :- OccTable(Rows(j.occupancy.value));
    Ok(Job(stay.0, stay.1, guests.0, guests.1, ParseDate(j.bookingDate.value), table))
  }

  // --------------------------------------------------------------- plans

  const CodeAttr := "RatePlanCode"

  /** A RatePlan that find_plans accepts on its own: notification type New, currency EUR and a code. */
  predicate HeaderOk(p: Element) {
    HasAttrs(p) && Attr(p, "RatePlanNotifType") == Some("New") && Attr(p, "CurrencyCode") == Some("EUR") &&
    Truthy(Attr(p, CodeAttr))
  }

  /** No two plans share a RatePlanCode. */
  predicate DistinctCodes(plans: seq<Element>) {
    forall i, j :: 0 <= i < j < |plans| ==> Attr(plans[i], CodeAttr) != Attr(plans[j], CodeAttr)
  }

  /** The loop of find_plans over the RatePlan elements: their codes, or the first complaint. */
  function PlanCodes(plans: seq<Element>): (r: Result<seq<string>>)
    ensures r.Ok? <==> (forall i :: 0 <= i < |plans| ==> HeaderOk(plans[i])) && DistinctCodes(plans)
    ensures r.Ok? ==> |r.value| == |plans| && NoDups(r.value)
    ensures r.Ok? ==> forall i :: 0 <= i < |plans| ==> Attr(plans[i], CodeAttr) == Some(r.value[i])
  {
    if |plans| == 0 then Ok([])
    else
      var n := |plans| - 1;
      var prefix := plans[..n];
      var p := plans[n];
      assert forall i :: 0 <= i < n ==> prefix[i] == plans[i];
      var codes := PlanCodes(prefix);
      if codes.Err? then Err(codes.error)
      else if !HasAttrs(p) then Err(TypeError)
      else if Attr(p, "RatePlanNotifType") != Some("New") then Err(EngineErr(NotNew))
      else if Attr(p, "CurrencyCode") != Some("EUR") then Err(EngineErr(NotEur))
      else if !Truthy(Attr(p, CodeAttr)) then Err(EngineErr(PlanCodeMissing))
      else
        var c := Attr(p, CodeAttr).value;
        NoDupsSnoc(codes.value, c);
        if c in codes.value then
          var i :| 0 <= i < n && codes.value[i] == c;
          assert Attr(plans[i], CodeAttr) == Attr(plans[n], CodeAttr);
          Err(EngineErr(PlanCodeNotUnique))
        else Ok(codes.value + [c])
  }

  /**
   * find_plans: the RatePlan children of the single RatePlans element of the
   * OTA_HotelRatePlanNotifRQ root (None: the message has another root).
   */
  function FindPlans(root: Option<Element>): (r: Result<seq<Element>>)
    ensures root.None? ==> r == Err(EngineErr(NoRatePlan))
    ensures root.Some? && |Children(root.value, "RatePlans")| != 1 ==> r == Err(EngineErr(NoRatePlan))
    ensures r.Ok? ==>
      r.value == Children(Children(root.value, "RatePlans")[0], "RatePlan") && |r.value| >= 1 &&
      (forall i :: 0 <= i < |r.value| ==> HeaderOk(r.value[i])) && DistinctCodes(r.value)
    ensures root.Some? && |Children(root.value, "RatePlans")| == 1 ==>
      var rp := Children(Children(root.value, "RatePlans")[0], "RatePlan");
      (r.Ok? <==> |rp| >= 1 && (forall i :: 0 <= i < |rp| ==> HeaderOk(rp[i])) && DistinctCodes(rp))
  {
    if root.None? then Err(EngineErr(NoRatePlan)) else
    var rps := Children(root.value, "RatePlans");
    :- Need(|rps| == 1, EngineErr(NoRatePlan));
    var rp := Children(rps[0], "RatePlan");
    :- Need(|rp| >= 1, EngineErr(NoRatePlan));
    var codes :- PlanCodes(rp);
    Ok(rp)
  }
}

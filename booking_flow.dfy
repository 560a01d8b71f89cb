/** The booking conversation of app.py: the booking record of a chat session
    (`init_booking_state`, app.py:141-153), the state machine that advances it
    one field per message (`handle_booking_flow`, app.py:272-440), and the
    turn dispatcher of `chat_page` that decides whether a message is a
    greeting, starts a booking, continues one, or is a question
    (app.py:585-656).

    The clinic directory, today's date, whether the database insert succeeds
    and whether the confirmation e-mail goes out are parameters of each turn.
    Replies are tags rather than text. */
module BookingFlow {
  import opened Text
  import opened Directory
  import opened Validators
  import opened Schedule
  import opened Intents
  import BookingsDb

  /** The values of `awaiting_field`, in the order the conversation visits them. */
  datatype Stage =
    | AwaitService
    | AwaitClinic
    | AwaitDate
    | AwaitTime
    | AwaitName
    | AwaitEmail
    | AwaitPhone
    | AwaitConfirm

  function Rank(s: Stage): nat {
    match s
    case AwaitService => 0
    case AwaitClinic => 1
    case AwaitDate => 2
    case AwaitTime => 3
    case AwaitName => 4
    case AwaitEmail => 5
    case AwaitPhone => 6
    case AwaitConfirm => 7
  }

  /** The booking dict of the session. `possibleClinics` is the key that exists
      only while a clinic is being chosen. */
  datatype Booking = Booking(
    started: bool,
    awaiting: Option<Stage>,
    service: Option<string>,
    clinic: Option<Clinic>,
    date: Option<string>,
    time: Option<string>,
    name: Option<string>,
    email: Option<string>,
    phone: Option<string>,
    possibleClinics: Option<seq<Clinic>>,
    confirmed: bool)

  /** `init_booking_state()`. */
  function InitBooking(): (b: Booking)
    ensures !b.started && b.awaiting.None?
  {
    Booking(false, None, None, None, None, None, None, None, None, None, false)
  }

  /** The replies, one tag per distinct message. */
  datatype Response =
    | Greeting
    | UploadFirst
    | AskService
    | ServiceUnavailable
    | AvailableAt(clinic: Clinic)
    | ChooseClinic(candidates: seq<Clinic>)
    | InvalidClinic
    | AskDate
    | InvalidDate
    | ClosedOnSunday
    | AskTime
    | InvalidTime
    | OutsideHours(openTime: Option<string>, closeTime: Option<string>)
    | AskName
    | InvalidName
    | AskEmail
    | InvalidEmail
    | AskPhone
    | InvalidPhone
    | ConfirmDetails(record: BookingsDb.BookingRecord)
    | Confirmed
    | BookedEmailFailed
    | Cancelled
    | SaveFailed
    | SomethingWentWrong
    | WorkingHours(clinics: seq<Clinic>)
    | ServiceList(clinics: seq<Clinic>)
    | ServiceNotOffered
    | Retrieval

  /** What one message does: the booking afterwards, the reply, and the record
      handed to `save_booking_db`, if any. */
  datatype Outcome = Outcome(booking: Booking, response: Response, saved: Option<BookingsDb.BookingRecord>)

  // ---------------------------------------------------------------------------
  // Field checks
  // ---------------------------------------------------------------------------

  /** `is_valid_phone`: `re.match(r"^[6-9]\d{9}$", phone)`. `$` also matches
      just before a final line feed, so ten digits followed by "\n" pass. */
  predicate IsValidPhone(phone: string) {
    (|phone| == 10 || (|phone| == 11 && phone[10] == '\n')) &&
    '6' <= phone[0] <= '9' && forall i :: 1 <= i < 10 ==> IsDigit(phone[i])
  }

  /** The name check of the name stage: not blank and not all digits. */
  predicate IsValidName(name: string) {
    IsNotEmpty(name) && !IsDigits(name)
  }

  /** Stripped input never ends in a line feed, so for it the phone check is
      exactly ten characters, the first 6 to 9 and the rest digits. */
  lemma PhoneOfStrippedInput(input: string)
    ensures var u := Strip(input);
      IsValidPhone(u) <==> |u| == 10 && '6' <= u[0] <= '9' && forall i :: 1 <= i < 10 ==> IsDigit(u[i])
  {
    var u := Strip(input);
    StripRightShape(StripLeft(input));
    if |u| == 11 {
      assert !IsSpace(u[10]);
    }
  }

  // ---------------------------------------------------------------------------
  // Reachable bookings
  // ---------------------------------------------------------------------------

  /** The fields present by the time stage `s` is awaited. */
  predicate Collected(b: Booking, s: Stage) {
    match s
    case AwaitService => true
    case AwaitClinic => b.service.Some? && b.possibleClinics.Some?
    case AwaitDate => b.service.Some? && b.clinic.Some?
    case AwaitTime => b.service.Some? && b.clinic.Some? && b.date.Some?
    case AwaitName => b.service.Some? && b.clinic.Some? && b.date.Some? && b.time.Some?
    case AwaitEmail => b.service.Some? && b.clinic.Some? && b.date.Some? && b.time.Some? && b.name.Some?
    case AwaitPhone =>
      b.service.Some? && b.clinic.Some? && b.date.Some? && b.time.Some? && b.name.Some? && b.email.Some?
    case AwaitConfirm =>
      b.service.Some? && b.clinic.Some? && b.date.Some? && b.time.Some? && b.name.Some? && b.email.Some? &&
      b.phone.Some?
  }

  /** A clinic is chosen and it offers the requested service. */
  predicate ClinicChosen(b: Booking) {
    b.service.Some? && b.clinic.Some? && Offers(b.clinic.value, Lower(b.service.value))
  }

  /** Moreover a date is chosen, and a time within the clinic's hours. */
  predicate TimeChosen(b: Booking) {
    ClinicChosen(b) && b.date.Some? && b.time.Some? && IsTimeWithinClinicHours(b.time.value, b.clinic.value)
  }

  /** The fields a stage relies on were collected, and checked against the
      service and the clinic, by the stages before it. */
  predicate StageReady(b: Booking, s: Stage) {
    match s
    case AwaitService => true
    case AwaitClinic =>
      b.service.Some? && b.possibleClinics.Some? &&
      forall c :: c in b.possibleClinics.value ==> Offers(c, Lower(b.service.value))
    case AwaitDate => ClinicChosen(b)
    case AwaitTime => ClinicChosen(b) && b.date.Some?
    case AwaitName => TimeChosen(b)
    case AwaitEmail => TimeChosen(b) && b.name.Some?
    case AwaitPhone => TimeChosen(b) && b.name.Some? && b.email.Some?
    case AwaitConfirm => TimeChosen(b) && b.name.Some? && b.email.Some? && b.phone.Some?
  }

  /** Every stored field passed the check of its stage. */
  predicate FieldsChecked(b: Booking) {
    (b.date.Some? ==> IsValidDate(b.date.value)) &&
    (b.time.Some? ==> IsValidTime(b.time.value)) &&
    (b.name.Some? ==> IsValidName(b.name.value)) &&
    (b.email.Some? ==> IsValidEmail(b.email.value)) &&
    (b.phone.Some? ==> IsValidPhone(b.phone.value))
  }

  /** The invariant of the session's booking: a booking is started exactly
      when a field is awaited, it is never marked confirmed, every stored field
      passed its check, and the awaited stage has what it needs. */
  predicate WellFormed(b: Booking) {
    (b.started <==> b.awaiting.Some?) && !b.confirmed && FieldsChecked(b) &&
    (b.awaiting.Some? ==> StageReady(b, b.awaiting.value))
  }

  /** The awaited stage has the fields it reads. */
  predicate Ready(b: Booking) {
    b.awaiting.Some? ==> Collected(b, b.awaiting.value)
  }

  lemma WellFormedIsReady(b: Booking)
    requires WellFormed(b)
    ensures Ready(b)
  {
  }

  /** The record the confirm stage saves: the clinic goes in by name. */
  function RecordOf(b: Booking): BookingsDb.BookingRecord
    requires Collected(b, AwaitConfirm)
  {
    BookingsDb.BookingRecord(b.name.value, b.email.value, b.phone.value, b.clinic.value.name,
                             b.service.value, b.date.value, b.time.value)
  }

  // ---------------------------------------------------------------------------
  // One message to the booking flow
  // ---------------------------------------------------------------------------

  /** Service stage: the clinics offering the service. None: unchanged. One:
      service and clinic set, on to the date. Several: service and candidates
      set, on to the clinic. */
  function ServiceStep(b: Booking, u: string, dir: seq<Clinic>): (o: Outcome)
    ensures o.saved.None?
  {
    var matches := OfferingFilter(dir, Lower(u));
    if |matches| == 0 then Outcome(b, ServiceUnavailable, None)
    else if |matches| == 1 then
      Outcome(b.(service := Some(u), clinic := Some(matches[0]), awaiting := Some(AwaitDate)),
              AvailableAt(matches[0]), None)
    else
      Outcome(b.(service := Some(u), possibleClinics := Some(matches), awaiting := Some(AwaitClinic)),
              ChooseClinic(matches), None)
  }

  /** Clinic stage: the first candidate named like the input is chosen, the
      candidate list is dropped, and the date is next. */
  function ClinicStep(b: Booking, u: string): (o: Outcome)
    ensures o.saved.None?
  {
    var candidates := match b.possibleClinics case Some(cs) => cs case None => [];
    match FindClinicByName(candidates, u)
    case Some(c) =>
      Outcome(b.(clinic := Some(c), possibleClinics := None, awaiting := Some(AwaitDate)), AskDate, None)
    case None =>
      Outcome(b, InvalidClinic, None)
  }

  /** Date stage: the date must pass `is_valid_date` and not be a Sunday. */
  function DateStep(b: Booking, u: string, today: Date): (o: Outcome)
    requires IsCalendarDate(today)
    ensures o.saved.None?
  {
    if !IsValidDate(u) then Outcome(b, InvalidDate, None)
    else if IsSunday(u, today) then Outcome(b, ClosedOnSunday, None)
    else Outcome(b.(date := Some(u), awaiting := Some(AwaitTime)), AskTime, None)
  }

  /** Time stage: the time must pass `is_valid_time` and fall within the
      chosen clinic's hours. */
  function TimeStep(b: Booking, u: string): (o: Outcome)
    requires b.clinic.Some?
    ensures o.saved.None?
  {
    var c := b.clinic.value;
    if !IsValidTime(u) then Outcome(b, InvalidTime, None)
    else if !IsTimeWithinClinicHours(u, c) then Outcome(b, OutsideHours(c.openTime, c.closeTime), None)
    else Outcome(b.(time := Some(u), awaiting := Some(AwaitName)), AskName, None)
  }

  function NameStep(b: Booking, u: string): (o: Outcome)
    ensures o.saved.None?
  {
    if !IsValidName(u) then Outcome(b, InvalidName, None)
    else Outcome(b.(name := Some(u), awaiting := Some(AwaitEmail)), AskEmail, None)
  }

  function EmailStep(b: Booking, u: string): (o: Outcome)
    ensures o.saved.None?
  {
    if !IsValidEmail(u) then Outcome(b, InvalidEmail, None)
    else Outcome(b.(email := Some(u), awaiting := Some(AwaitPhone)), AskPhone, None)
  }

  function PhoneStep(b: Booking, u: string): (o: Outcome)
    requires Collected(b, AwaitPhone)
    ensures o.saved.None?
  {
    if !IsValidPhone(u) then Outcome(b, InvalidPhone, None)
    else
      var b' := b.(phone := Some(u), awaiting := Some(AwaitConfirm));
      Outcome(b', ConfirmDetails(RecordOf(b')), None)
  }

  /** Confirm stage: "yes" saves the record and resets the booking, whether or
      not the e-mail goes out; a failing save raises and leaves the booking as
      it was; anything else cancels and resets. */
  function ConfirmStep(b: Booking, u: string, dbOk: bool, emailOk: bool): Outcome
    requires Collected(b, AwaitConfirm)
  {
    if Lower(u) == "yes" then
      if !dbOk then Outcome(b, SaveFailed, None)
      else if !emailOk then Outcome(InitBooking(), BookedEmailFailed, Some(RecordOf(b)))
      else Outcome(InitBooking(), Confirmed, Some(RecordOf(b)))
    else Outcome(InitBooking(), Cancelled, None)
  }

  /** `handle_booking_flow`: the message, stripped, goes to the awaited stage. */
  function Next(b: Booking, input: string, dir: seq<Clinic>, today: Date, dbOk: bool, emailOk: bool): Outcome
    requires Ready(b) && IsCalendarDate(today)
  {
    var u := Strip(input);
    match b.awaiting
    case None => Outcome(b, SomethingWentWrong, None)
    case Some(s) =>
      match s
      case AwaitService => ServiceStep(b, u, dir)
      case AwaitClinic => ClinicStep(b, u)
      case AwaitDate => DateStep(b, u, today)
      case AwaitTime => TimeStep(b, u)
      case AwaitName => NameStep(b, u)
      case AwaitEmail => EmailStep(b, u)
      case AwaitPhone => PhoneStep(b, u)
      case AwaitConfirm => ConfirmStep(b, u, dbOk, emailOk)
  }

  // ---------------------------------------------------------------------------
  // One chat turn
  // ---------------------------------------------------------------------------

  /** The clinics a question is about: the one it mentions, else all. */
  function ClinicsAsked(dir: seq<Clinic>, clean: string): seq<Clinic> {
    match GetClinicFromQuery(dir, clean)
    case Some(c) => [c]
    case None => dir
  }

  /** The dispatcher of `chat_page`, in its order of priority: greeting,
      booking keyword, continuation of a started booking, working hours,
      service list, a service that is not offered, and otherwise retrieval.
      An empty directory stands for "no clinics loaded". */
  function TurnNext(b: Booking, prompt: string, dir: seq<Clinic>, today: Date, dbOk: bool, emailOk: bool): Outcome
    requires Ready(b) && IsCalendarDate(today)
  {
    var clean := Lower(Strip(prompt));
    if IsGreeting(clean) then Outcome(b, Greeting, None)
    else if DetectBookingIntent(prompt) then
      if |dir| == 0 then Outcome(b, UploadFirst, None)
      else Outcome(b.(started := true, awaiting := Some(AwaitService)), AskService, None)
    else if b.started then Next(b, prompt, dir, today, dbOk, emailOk)
    else if IsWorkingHoursQuery(clean) then
      if |dir| == 0 then Outcome(b, UploadFirst, None)
      else Outcome(b, WorkingHours(ClinicsAsked(dir, clean)), None)
    else if IsServiceListQuery(clean) then
      if |dir| == 0 then Outcome(b, UploadFirst, None)
      else Outcome(b, ServiceList(ClinicsAsked(dir, clean)), None)
    else if LooksLikeServiceQuery(clean) && !IsServiceAvailable(dir, prompt) then
      Outcome(b, ServiceNotOffered, None)
    else Outcome(b, Retrieval, None)
  }

  // ---------------------------------------------------------------------------
  // Lemmas
  // ---------------------------------------------------------------------------

  /** The reset booking is a reachable one. */
  lemma InitBookingWellFormed()
    ensures WellFormed(InitBooking())
  {
  }

  lemma ServiceStepKeepsWellFormed(b: Booking, u: string, dir: seq<Clinic>)
    requires WellFormed(b) && b.awaiting == Some(AwaitService)
    ensures WellFormed(ServiceStep(b, u, dir).booking)
  {
    var matches := OfferingFilter(dir, Lower(u));
    if |matches| == 1 {
      assert matches[0] in matches;
      var b' := b.(service := Some(u), clinic := Some(matches[0]), awaiting := Some(AwaitDate));
      assert ClinicChosen(b');
      assert FieldsChecked(b') by {
        assert b'.date == b.date && b'.time == b.time && b'.name == b.name && b'.email == b.email && b'.phone == b.phone;
      }
    } else if |matches| > 1 {
      var b' := b.(service := Some(u), possibleClinics := Some(matches), awaiting := Some(AwaitClinic));
      assert StageReady(b', AwaitClinic);
      assert FieldsChecked(b') by {
        assert b'.date == b.date && b'.time == b.time && b'.name == b.name && b'.email == b.email && b'.phone == b.phone;
      }
    }
  }

  lemma ClinicStepKeepsWellFormed(b: Booking, u: string)
    requires WellFormed(b) && b.awaiting == Some(AwaitClinic)
    ensures WellFormed(ClinicStep(b, u).booking)
  {
    var candidates := b.possibleClinics.value;
    var r := FindClinicByName(candidates, u);
    if r.Some? {
      var i :| 0 <= i < |candidates| && candidates[i] == r.value && NameIs(candidates[i], u);
      assert r.value in candidates;
    }
  }

  lemma DateStepKeepsWellFormed(b: Booking, u: string, today: Date)
    requires WellFormed(b) && b.awaiting == Some(AwaitDate) && IsCalendarDate(today)
    ensures WellFormed(DateStep(b, u, today).booking)
  {
    if IsValidDate(u) && !IsSunday(u, today) {
      var b' := b.(date := Some(u), awaiting := Some(AwaitTime));
      assert ClinicChosen(b') by { assert b'.clinic == b.clinic && b'.service == b.service; }
      assert FieldsChecked(b') by { assert b'.time == b.time && b'.name == b.name && b'.email == b.email && b'.phone == b.phone; }
    }
  }

  lemma TimeStepKeepsWellFormed(b: Booking, u: string)
    requires WellFormed(b) && b.awaiting == Some(AwaitTime)
    ensures WellFormed(TimeStep(b, u).booking)
  {
    if IsValidTime(u) && IsTimeWithinClinicHours(u, b.clinic.value) {
      var b' := b.(time := Some(u), awaiting := Some(AwaitName));
      assert ClinicChosen(b') by { assert b'.clinic == b.clinic && b'.service == b.service; }
      assert FieldsChecked(b') by { assert b'.date == b.date && b'.name == b.name && b'.email == b.email && b'.phone == b.phone; }
    }
  }

  lemma NameStepKeepsWellFormed(b: Booking, u: string)
    requires WellFormed(b) && b.awaiting == Some(AwaitName)
    ensures WellFormed(NameStep(b, u).booking)
  {
    if IsValidName(u) {
      var b' := b.(name := Some(u), awaiting := Some(AwaitEmail));
      assert TimeChosen(b') by { assert b'.clinic == b.clinic && b'.service == b.service && b'.date == b.date && b'.time == b.time; }
      assert FieldsChecked(b') by { assert b'.date == b.date && b'.time == b.time && b'.email == b.email && b'.phone == b.phone; }
    }
  }

  lemma EmailStepKeepsWellFormed(b: Booking, u: string)
    requires WellFormed(b) && b.awaiting == Some(AwaitEmail)
    ensures WellFormed(EmailStep(b, u).booking)
  {
    if IsValidEmail(u) {
      var b' := b.(email := Some(u), awaiting := Some(AwaitPhone));
      assert TimeChosen(b') by { assert b'.clinic == b.clinic && b'.service == b.service && b'.date == b.date && b'.time == b.time; }
      assert FieldsChecked(b') by { assert b'.date == b.date && b'.time == b.time && b'.name == b.name && b'.phone == b.phone; }
    }
  }

  lemma PhoneStepKeepsWellFormed(b: Booking, u: string)
    requires WellFormed(b) && b.awaiting == Some(AwaitPhone)
    ensures WellFormed(PhoneStep(b, u).booking)
  {
    if IsValidPhone(u) {
      var b' := b.(phone := Some(u), awaiting := Some(AwaitConfirm));
      assert TimeChosen(b') by { assert b'.clinic == b.clinic && b'.service == b.service && b'.date == b.date && b'.time == b.time; }
      assert FieldsChecked(b') by { assert b'.date == b.date && b'.time == b.time && b'.name == b.name && b'.email == b.email; }
    }
  }

  lemma ConfirmStepKeepsWellFormed(b: Booking, u: string, dbOk: bool, emailOk: bool)
    requires WellFormed(b) && b.awaiting == Some(AwaitConfirm)
    ensures WellFormed(ConfirmStep(b, u, dbOk, emailOk).booking)
  {
  }

  /** Every message keeps the booking well formed. */
  lemma NextKeepsWellFormed(b: Booking, input: string, dir: seq<Clinic>, today: Date, dbOk: bool, emailOk: bool)
    requires WellFormed(b) && IsCalendarDate(today)
    ensures WellFormed(Next(b, input, dir, today, dbOk, emailOk).booking)
  {
    var u := Strip(input);
    match b.awaiting
    case None =>
    case Some(s) =>
      match s
      case AwaitService => ServiceStepKeepsWellFormed(b, u, dir);
      case AwaitClinic => ClinicStepKeepsWellFormed(b, u);
      case AwaitDate => DateStepKeepsWellFormed(b, u, today);
      case AwaitTime => TimeStepKeepsWellFormed(b, u);
      case AwaitName => NameStepKeepsWellFormed(b, u);
      case AwaitEmail => EmailStepKeepsWellFormed(b, u);
      case AwaitPhone => PhoneStepKeepsWellFormed(b, u);
      case AwaitConfirm => ConfirmStepKeepsWellFormed(b, u, dbOk, emailOk);
  }

  /** Every turn keeps the booking well formed. */
  lemma TurnKeepsWellFormed(b: Booking, prompt: string, dir: seq<Clinic>, today: Date, dbOk: bool, emailOk: bool)
    requires WellFormed(b) && IsCalendarDate(today)
    ensures WellFormed(TurnNext(b, prompt, dir, today, dbOk, emailOk).booking)
  {
    NextKeepsWellFormed(b, prompt, dir, today, dbOk, emailOk);
  }

  /** Service stage: no match is a refusal that changes nothing; one match
      picks that clinic and asks for the date; several store exactly the
      offering clinics of the directory and ask which one. */
  lemma ServiceStage(b: Booking, input: string, dir: seq<Clinic>, today: Date, dbOk: bool, emailOk: bool)
    requires Ready(b) && IsCalendarDate(today) && b.awaiting == Some(AwaitService)
    ensures var o := Next(b, input, dir, today, dbOk, emailOk);
      var needle := Lower(Strip(input));
      && o.saved.None?
      && (o.response == ServiceUnavailable <==> forall i :: 0 <= i < |dir| ==> !Offers(dir[i], needle))
      && (o.response == ServiceUnavailable ==> o.booking == b)
      && (|OfferingFilter(dir, needle)| == 1 ==>
            o.booking == b.(service := Some(Strip(input)), clinic := Some(OfferingFilter(dir, needle)[0]),
                            awaiting := Some(AwaitDate)) &&
            o.response == AvailableAt(OfferingFilter(dir, needle)[0]))
      && (|OfferingFilter(dir, needle)| >= 2 ==>
            o.booking == b.(service := Some(Strip(input)), possibleClinics := Some(OfferingFilter(dir, needle)),
                            awaiting := Some(AwaitClinic)) &&
            o.response == ChooseClinic(OfferingFilter(dir, needle)))
      && (o.booking.awaiting == Some(AwaitDate) ==>
            o.booking.service == Some(Strip(input)) && o.booking.clinic.value in dir &&
            Offers(o.booking.clinic.value, needle) &&
            (forall c :: c in dir && Offers(c, needle) ==> c == o.booking.clinic.value))
      && (o.booking.awaiting == Some(AwaitClinic) ==>
            o.booking.service == Some(Strip(input)) &&
            (forall c :: c in o.booking.possibleClinics.value <==> c in dir && Offers(c, needle)))
  {
    var needle := Lower(Strip(input));
    var matches := OfferingFilter(dir, needle);
    OfferingFilterEmpty(dir, needle);
    forall c ensures c in matches <==> c in dir && Offers(c, needle) {
      OfferingFilterMembers(dir, needle, c);
    }
    if |matches| == 1 {
      assert forall c :: c in matches ==> c == matches[0];
    }
  }

  /** Clinic stage: accepted exactly when some candidate has the typed name
      (ignoring case); the first such candidate becomes the clinic and the
      candidate list goes. A refusal changes nothing. */
  lemma ClinicStage(b: Booking, input: string, dir: seq<Clinic>, today: Date, dbOk: bool, emailOk: bool)
    requires Ready(b) && IsCalendarDate(today) && b.awaiting == Some(AwaitClinic)
    ensures var o := Next(b, input, dir, today, dbOk, emailOk);
      var cs := b.possibleClinics.value;
      && o.saved.None?
      && (o.booking.awaiting == Some(AwaitDate) <==> exists i :: 0 <= i < |cs| && NameIs(cs[i], Strip(input)))
      && (o.booking.awaiting == Some(AwaitDate) ==>
            o.booking == b.(clinic := FindClinicByName(cs, Strip(input)), possibleClinics := None, awaiting := Some(AwaitDate)))
      && (o.booking.awaiting != Some(AwaitDate) ==> o.booking == b && o.response == InvalidClinic)
  {
  }

  /** Which check a field stage applies to the stripped input. */
  predicate Accepts(b: Booking, s: Stage, u: string, today: Date)
    requires IsCalendarDate(today) && (s == AwaitTime ==> b.clinic.Some?)
  {
    match s
    case AwaitDate => IsValidDate(u) && !IsSunday(u, today)
    case AwaitTime => IsValidTime(u) && IsTimeWithinClinicHours(u, b.clinic.value)
    case AwaitName => IsValidName(u)
    case AwaitEmail => IsValidEmail(u)
    case AwaitPhone => IsValidPhone(u)
    case _ => false
  }

  /** The booking with the stripped input stored in the field stage `s`
      collects, awaiting the following stage. */
  function Advance(b: Booking, s: Stage, u: string): Booking {
    match s
    case AwaitDate => b.(date := Some(u), awaiting := Some(AwaitTime))
    case AwaitTime => b.(time := Some(u), awaiting := Some(AwaitName))
    case AwaitName => b.(name := Some(u), awaiting := Some(AwaitEmail))
    case AwaitEmail => b.(email := Some(u), awaiting := Some(AwaitPhone))
    case AwaitPhone => b.(phone := Some(u), awaiting := Some(AwaitConfirm))
    case _ => b
  }

  /** Date, time, name, e-mail and phone stages: input that fails the stage's
      check leaves the booking exactly as it was; input that passes is stored,
      stripped, in that one field and the conversation moves on exactly one
      stage. Nothing is saved. */
  lemma FieldStage(b: Booking, input: string, dir: seq<Clinic>, today: Date, dbOk: bool, emailOk: bool)
    requires Ready(b) && IsCalendarDate(today)
    requires b.awaiting.Some? && 2 <= Rank(b.awaiting.value) <= 6
    ensures var o := Next(b, input, dir, today, dbOk, emailOk);
      var s := b.awaiting.value;
      && o.saved.None?
      && (Accepts(b, s, Strip(input), today) ==>
            o.booking == Advance(b, s, Strip(input)) && Rank(o.booking.awaiting.value) == Rank(s) + 1)
      && (!Accepts(b, s, Strip(input), today) ==> o.booking == b)
  {
    var u := Strip(input);
    var o := Next(b, input, dir, today, dbOk, emailOk);
    AdvanceMovesOn(b, b.awaiting.value, u);
    match b.awaiting.value
    case AwaitDate =>
      assert o == DateStep(b, u, today);
      DateStepSpec(b, u, today);
    case AwaitTime =>
      assert o == TimeStep(b, u);
      TimeStepSpec(b, u, today);
    case AwaitName =>
      assert o == NameStep(b, u);
      NameStepSpec(b, u, today);
    case AwaitEmail =>
      assert o == EmailStep(b, u);
      EmailStepSpec(b, u, today);
    case AwaitPhone =>
      assert o == PhoneStep(b, u);
      PhoneStepSpec(b, u, today);
  }

  lemma AdvanceMovesOn(b: Booking, s: Stage, u: string)
    requires 2 <= Rank(s) <= 6
    ensures Advance(b, s, u).awaiting.Some? && Rank(Advance(b, s, u).awaiting.value) == Rank(s) + 1
  {
  }

  lemma DateStepSpec(b: Booking, u: string, today: Date)
    requires IsCalendarDate(today)
    ensures Accepts(b, AwaitDate, u, today) ==> DateStep(b, u, today).booking == Advance(b, AwaitDate, u)
    ensures !Accepts(b, AwaitDate, u, today) ==> DateStep(b, u, today).booking == b
  {
  }

  lemma TimeStepSpec(b: Booking, u: string, today: Date)
    requires IsCalendarDate(today) && b.clinic.Some?
    ensures Accepts(b, AwaitTime, u, today) ==> TimeStep(b, u).booking == Advance(b, AwaitTime, u)
    ensures !Accepts(b, AwaitTime, u, today) ==> TimeStep(b, u).booking == b
  {
  }

  lemma NameStepSpec(b: Booking, u: string, today: Date)
    requires IsCalendarDate(today)
    ensures Accepts(b, AwaitName, u, today) ==> NameStep(b, u).booking == Advance(b, AwaitName, u)
    ensures !Accepts(b, AwaitName, u, today) ==> NameStep(b, u).booking == b
  {
  }

  lemma EmailStepSpec(b: Booking, u: string, today: Date)
    requires IsCalendarDate(today)
    ensures Accepts(b, AwaitEmail, u, today) ==> EmailStep(b, u).booking == Advance(b, AwaitEmail, u)
    ensures !Accepts(b, AwaitEmail, u, today) ==> EmailStep(b, u).booking == b
  {
  }

  lemma PhoneStepSpec(b: Booking, u: string, today: Date)
    requires IsCalendarDate(today) && Collected(b, AwaitPhone)
    ensures Accepts(b, AwaitPhone, u, today) ==> PhoneStep(b, u).booking == Advance(b, AwaitPhone, u)
    ensures !Accepts(b, AwaitPhone, u, today) ==> PhoneStep(b, u).booking == b
  {
  }

  /** The date stage looks only at Sundays: whatever days the clinic lists as
      closed, two bookings that differ only in their clinic get the same
      answer to the same date. */
  lemma DateStageIgnoresClosedDays(b: Booking, c: Clinic, input: string, dir: seq<Clinic>, today: Date,
                                   dbOk: bool, emailOk: bool)
    requires Ready(b) && IsCalendarDate(today) && b.awaiting == Some(AwaitDate)
    ensures var b' := b.(clinic := Some(c));
      Ready(b') &&
      Next(b', input, dir, today, dbOk, emailOk).response == Next(b, input, dir, today, dbOk, emailOk).response &&
      Next(b', input, dir, today, dbOk, emailOk).booking.awaiting == Next(b, input, dir, today, dbOk, emailOk).booking.awaiting
  {
  }

  /** Confirm stage: "yes" (any case) hands exactly the collected record to
      the database, with the clinic by name, and resets the booking whether or
      not the e-mail goes out; a failing save leaves the booking as it was; any
      other answer cancels and resets without saving. */
  lemma ConfirmStage(b: Booking, input: string, dir: seq<Clinic>, today: Date, dbOk: bool, emailOk: bool)
    requires Ready(b) && IsCalendarDate(today) && b.awaiting == Some(AwaitConfirm)
    ensures var o := Next(b, input, dir, today, dbOk, emailOk);
      var yes := Lower(Strip(input)) == "yes";
      && (o.saved.Some? <==> yes && dbOk)
      && (o.saved.Some? ==> o.saved.value == RecordOf(b) && o.booking == InitBooking() &&
                            o.saved.value.clinic == b.clinic.value.name)
      && (yes && !dbOk ==> o.booking == b)
      && (!yes ==> o.booking == InitBooking() && o.response == Cancelled)
  {
  }

  /** Only the confirm stage saves, and what it saves is the collected record. */
  lemma OnlyConfirmationSaves(b: Booking, prompt: string, dir: seq<Clinic>, today: Date, dbOk: bool, emailOk: bool)
    requires Ready(b) && IsCalendarDate(today)
    ensures var o := TurnNext(b, prompt, dir, today, dbOk, emailOk);
      o.saved.Some? ==> b.awaiting == Some(AwaitConfirm) && o.saved == Some(RecordOf(b)) && o.booking == InitBooking()
  {
  }

  /** The record of a booking awaiting confirmation has passed every check on
      the way: a valid date, a time within the chosen clinic's hours, a name,
      an e-mail address and a phone number, and a clinic that offers the
      service. */
  lemma ConfirmedRecordIsChecked(b: Booking)
    requires WellFormed(b) && b.awaiting == Some(AwaitConfirm)
    ensures var r := RecordOf(b);
      && IsValidDate(r.date) && IsValidTime(r.time) && IsTimeWithinClinicHours(r.time, b.clinic.value)
      && IsValidName(r.name) && IsValidEmail(r.email) && IsValidPhone(r.phone)
      && r.clinic == b.clinic.value.name && Offers(b.clinic.value, Lower(r.service))
  {
  }

  /** Greetings come first: an exact greeting changes nothing, even mid-booking. */
  lemma GreetingChangesNothing(b: Booking, prompt: string, dir: seq<Clinic>, today: Date, dbOk: bool, emailOk: bool)
    requires Ready(b) && IsCalendarDate(today)
    requires IsGreeting(Lower(Strip(prompt)))
    ensures TurnNext(b, prompt, dir, today, dbOk, emailOk) == Outcome(b, Greeting, None)
  {
  }

  /** A booking keyword that is not a greeting (re)starts the booking at the
      service stage, touching no other field, when clinics are loaded; with
      none loaded it changes nothing. This wins over continuing the booking. */
  lemma BookingKeywordRestarts(b: Booking, prompt: string, dir: seq<Clinic>, today: Date, dbOk: bool, emailOk: bool)
    requires Ready(b) && IsCalendarDate(today)
    requires !IsGreeting(Lower(Strip(prompt))) && DetectBookingIntent(prompt)
    ensures var o := TurnNext(b, prompt, dir, today, dbOk, emailOk);
      && o.saved.None?
      && (|dir| > 0 ==> o.booking == b.(started := true, awaiting := Some(AwaitService)))
      && (|dir| == 0 ==> o.booking == b && o.response == UploadFirst)
  {
  }

  /** A message that is neither a greeting nor a booking request continues a
      started booking. */
  lemma StartedBookingContinues(b: Booking, prompt: string, dir: seq<Clinic>, today: Date, dbOk: bool, emailOk: bool)
    requires Ready(b) && IsCalendarDate(today) && b.started
    requires !IsGreeting(Lower(Strip(prompt))) && !DetectBookingIntent(prompt)
    ensures TurnNext(b, prompt, dir, today, dbOk, emailOk) == Next(b, prompt, dir, today, dbOk, emailOk)
  {
  }

  /** A turn that does not start or continue a booking leaves it unchanged and
      saves nothing. */
  lemma QuestionsChangeNothing(b: Booking, prompt: string, dir: seq<Clinic>, today: Date, dbOk: bool, emailOk: bool)
    requires Ready(b) && IsCalendarDate(today) && !b.started
    requires !DetectBookingIntent(prompt)
    ensures TurnNext(b, prompt, dir, today, dbOk, emailOk).booking == b
    ensures TurnNext(b, prompt, dir, today, dbOk, emailOk).saved.None?
  {
  }

  /** An e-mail address at facebook.com, typed at the e-mail stage, is read as
      a booking request: the booking goes back to the service stage with the
      address unsaved and the earlier fields kept. */
  lemma FacebookAddressRestartsBooking(b: Booking, dir: seq<Clinic>, today: Date, dbOk: bool, emailOk: bool)
    requires Ready(b) && IsCalendarDate(today) && b.awaiting == Some(AwaitEmail) && |dir| > 0
    ensures var o := TurnNext(b, "asha@facebook.com", dir, today, dbOk, emailOk);
      && o.booking.awaiting == Some(AwaitService)
      && o.booking.email == b.email
      && o.booking.name == b.name && o.booking.date == b.date && o.booking.time == b.time
  {
    FacebookAddressIsBookingIntent();
    var clean := Lower(Strip("asha@facebook.com"));
    assert !IsGreeting(clean) by {
      assert |Strip("asha@facebook.com")| <= |"asha@facebook.com"| by {
        StripLeftShape("asha@facebook.com");
        StripRightShape(StripLeft("asha@facebook.com"));
      }
      assert |clean| > 12;
    }
  }

  /** A message that holds "consultation" and is not a greeting never reaches
      the service question branch: it starts a booking when clinics are
      loaded and asks for an upload otherwise. */
  lemma ConsultationQuestionStartsBooking(b: Booking, prompt: string, dir: seq<Clinic>, today: Date,
                                          dbOk: bool, emailOk: bool)
    requires Ready(b) && IsCalendarDate(today)
    requires !IsGreeting(Lower(Strip(prompt))) && Contains(Lower(prompt), "consultation")
    ensures var o := TurnNext(b, prompt, dir, today, dbOk, emailOk);
      && o.response != ServiceNotOffered && o.response != Retrieval
      && o.response == (if |dir| == 0 then UploadFirst else AskService)
  {
    ConsultationIsBookingIntent(prompt);
  }

  /** A blank service answer matches every clinic that lists any service. */
  lemma BlankServiceMatchesEveryClinic(b: Booking, input: string, dir: seq<Clinic>, today: Date, dbOk: bool, emailOk: bool)
    requires Ready(b) && IsCalendarDate(today) && b.awaiting == Some(AwaitService)
    requires AllSpace(input)
    requires forall i :: 0 <= i < |dir| ==> |dir[i].services| > 0
    ensures OfferingFilter(dir, Lower(Strip(input))) == dir
  {
    StripEmptyIffAllSpace(input);
    assert Lower(Strip(input)) == [];
    BlankFilterKeepsAll(dir);
  }

  // ---------------------------------------------------------------------------
  // The session
  // ---------------------------------------------------------------------------

  /** The booking of a chat session, changed in place by each message. */
  class BookingSession {
    var started: bool
    var awaiting: Option<Stage>
    var service: Option<string>
    var clinic: Option<Clinic>
    var date: Option<string>
    var time: Option<string>
    var name: Option<string>
    var email: Option<string>
    var phone: Option<string>
    var possibleClinics: Option<seq<Clinic>>
    var confirmed: bool

    function Snapshot(): Booking
      reads this
    {
      Booking(started, awaiting, service, clinic, date, time, name, email, phone, possibleClinics, confirmed)
    }

    predicate Valid()
      reads this
    {
      WellFormed(Snapshot())
    }

    /** A new session starts from `init_booking_state()`. */
    constructor ()
      ensures Snapshot() == InitBooking() && Valid()
    {
      started, awaiting, service, clinic := false, None, None, None;
      date, time, name, email, phone := None, None, None, None, None;
      possibleClinics, confirmed := None, false;
    }

    /** `st.session_state.booking = init_booking_state()`. */
    method Reset()
      modifies this
      ensures Snapshot() == InitBooking()
    {
      started, awaiting, service, clinic := false, None, None, None;
      date, time, name, email, phone := None, None, None, None, None;
      possibleClinics, confirmed := None, false;
    }

    method ServiceStage(u: string, dir: seq<Clinic>) returns (resp: Response)
      modifies this
      ensures var o := ServiceStep(old(Snapshot()), u, dir); Snapshot() == o.booking && resp == o.response
    {
      var matches := MatchClinics(dir, Lower(u));
      if |matches| == 0 {
        return ServiceUnavailable;
      }
      service := Some(u);
      if |matches| == 1 {
        clinic := Some(matches[0]);
        awaiting := Some(AwaitDate);
        return AvailableAt(matches[0]);
      }
      possibleClinics := Some(matches);
      awaiting := Some(AwaitClinic);
      return ChooseClinic(matches);
    }

    method ClinicStage(u: string) returns (resp: Response)
      modifies this
      ensures var o := ClinicStep(old(Snapshot()), u); Snapshot() == o.booking && resp == o.response
    {
      var candidates := match possibleClinics case Some(cs) => cs case None => [];
      var i := 0;
      while i < |candidates|
        invariant 0 <= i <= |candidates|
        invariant forall j :: 0 <= j < i ==> !NameIs(candidates[j], u)
      {
        if NameIs(candidates[i], u) {
          assert FindClinicByName(candidates, u) == Some(candidates[i]);
          clinic := Some(candidates[i]);
          possibleClinics := None;
          awaiting := Some(AwaitDate);
          return AskDate;
        }
        i := i + 1;
      }
      return InvalidClinic;
    }

    method DateStage(u: string, today: Date) returns (resp: Response)
      requires IsCalendarDate(today)
      modifies this
      ensures var o := DateStep(old(Snapshot()), u, today); Snapshot() == o.booking && resp == o.response
    {
      if !IsValidDate(u) {
        return InvalidDate;
      }
      if IsSunday(u, today) {
        return ClosedOnSunday;
      }
      date := Some(u);
      awaiting := Some(AwaitTime);
      return AskTime;
    }

    method TimeStage(u: string) returns (resp: Response)
      requires clinic.Some?
      modifies this
      ensures var o := TimeStep(old(Snapshot()), u); Snapshot() == o.booking && resp == o.response
    {
      var c := clinic.value;
      if !IsValidTime(u) {
        return InvalidTime;
      }
      if !IsTimeWithinClinicHours(u, c) {
        return OutsideHours(c.openTime, c.closeTime);
      }
      time := Some(u);
      awaiting := Some(AwaitName);
      return AskName;
    }

    method NameStage(u: string) returns (resp: Response)
      modifies this
      ensures var o := NameStep(old(Snapshot()), u); Snapshot() == o.booking && resp == o.response
    {
      if !IsValidName(u) {
        return InvalidName;
      }
      name := Some(u);
      awaiting := Some(AwaitEmail);
      return AskEmail;
    }

    method EmailStage(u: string) returns (resp: Response)
      modifies this
      ensures var o := EmailStep(old(Snapshot()), u); Snapshot() == o.booking && resp == o.response
    {
      if !IsValidEmail(u) {
        return InvalidEmail;
      }
      email := Some(u);
      awaiting := Some(AwaitPhone);
      return AskPhone;
    }

    method PhoneStage(u: string) returns (resp: Response)
      requires Collected(Snapshot(), AwaitPhone)
      modifies this
      ensures var o := PhoneStep(old(Snapshot()), u); Snapshot() == o.booking && resp == o.response
    {
      if !IsValidPhone(u) {
        return InvalidPhone;
      }
      phone := Some(u);
      awaiting := Some(AwaitConfirm);
      return ConfirmDetails(RecordOf(Snapshot()));
    }

    method ConfirmStage(u: string, dbOk: bool, emailOk: bool, store: BookingsDb.BookingStore, now: nat) returns (resp: Response)
      requires Collected(Snapshot(), AwaitConfirm) && store.Valid()
      modifies this, store
      ensures var o := ConfirmStep(old(Snapshot()), u, dbOk, emailOk);
        && Snapshot() == o.booking && resp == o.response
        && store.Snapshot() == (if o.saved.Some? then BookingsDb.Save(old(store.Snapshot()), o.saved.value, now) else old(store.Snapshot()))
      ensures store.Valid()
    {
      if Lower(u) == "yes" {
        var record := RecordOf(Snapshot());
        if !dbOk {
          return SaveFailed;
        }
        store.SaveBooking(record, now);
        Reset();
        if !emailOk {
          return BookedEmailFailed;
        }
        return Confirmed;
      }
      Reset();
      return Cancelled;
    }

    /** `handle_booking_flow`. */
    method HandleBookingFlow(input: string, dir: seq<Clinic>, today: Date, dbOk: bool, emailOk: bool,
                             store: BookingsDb.BookingStore, now: nat) returns (resp: Response)
      requires Ready(Snapshot()) && store.Valid() && IsCalendarDate(today)
      modifies this, store
      ensures var o := Next(old(Snapshot()), input, dir, today, dbOk, emailOk);
        && Snapshot() == o.booking && resp == o.response
        && store.Snapshot() == (if o.saved.Some? then BookingsDb.Save(old(store.Snapshot()), o.saved.value, now) else old(store.Snapshot()))
      ensures store.Valid()
    {
      var u := Strip(input);
      match awaiting
      case None =>
        resp := SomethingWentWrong;
      case Some(s) =>
        match s
        case AwaitService => resp := ServiceStage(u, dir);
        case AwaitClinic => resp := ClinicStage(u);
        case AwaitDate => resp := DateStage(u, today);
        case AwaitTime => resp := TimeStage(u);
        case _ => resp := DetailsStage(input, dir, today, dbOk, emailOk, store, now);
    }

    /** The stages after the time: the patient's name, e-mail address and
        phone number, and the confirmation. */
    method DetailsStage(input: string, dir: seq<Clinic>, today: Date, dbOk: bool, emailOk: bool,
                        store: BookingsDb.BookingStore, now: nat) returns (resp: Response)
      requires Ready(Snapshot()) && store.Valid() && IsCalendarDate(today)
      requires awaiting.Some? && Rank(awaiting.value) >= 4
      modifies this, store
      ensures var o := Next(old(Snapshot()), input, dir, today, dbOk, emailOk);
        && Snapshot() == o.booking && resp == o.response
        && store.Snapshot() == (if o.saved.Some? then BookingsDb.Save(old(store.Snapshot()), o.saved.value, now) else old(store.Snapshot()))
      ensures store.Valid()
    {
      var u := Strip(input);
      match awaiting.value
      case AwaitName => resp := NameStage(u);
      case AwaitEmail => resp := EmailStage(u);
      case AwaitPhone => resp := PhoneStage(u);
      case AwaitConfirm => resp := ConfirmStage(u, dbOk, emailOk, store, now);
    }

    /** One chat message, as `chat_page` dispatches it. */
    method Turn(prompt: string, dir: seq<Clinic>, today: Date, dbOk: bool, emailOk: bool,
                store: BookingsDb.BookingStore, now: nat) returns (resp: Response)
      requires Valid() && store.Valid() && IsCalendarDate(today)
      modifies this, store
      ensures var o := TurnNext(old(Snapshot()), prompt, dir, today, dbOk, emailOk);
        && Snapshot() == o.booking && resp == o.response
        && store.Snapshot() == (if o.saved.Some? then BookingsDb.Save(old(store.Snapshot()), o.saved.value, now) else old(store.Snapshot()))
      ensures Valid() && store.Valid()
    {
      WellFormedIsReady(Snapshot());
      TurnKeepsWellFormed(Snapshot(), prompt, dir, today, dbOk, emailOk);
      var clean := Lower(Strip(prompt));
      if IsGreeting(clean) {
        resp := Greeting;
      } else if DetectBookingIntent(prompt) {
        if |dir| == 0 {
          resp := UploadFirst;
        } else {
          started := true;
          awaiting := Some(AwaitService);
          resp := AskService;
        }
      } else if started {
        resp := HandleBookingFlow(prompt, dir, today, dbOk, emailOk, store, now);
      } else if IsWorkingHoursQuery(clean) {
        resp := if |dir| == 0 then UploadFirst else WorkingHours(ClinicsAsked(dir, clean));
      } else if IsServiceListQuery(clean) {
        resp := if |dir| == 0 then UploadFirst else ServiceList(ClinicsAsked(dir, clean));
      } else if LooksLikeServiceQuery(clean) && !IsServiceAvailable(dir, prompt) {
        resp := ServiceNotOffered;
      } else {
        resp := Retrieval;
      }
    }
  }
}

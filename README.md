# Clinic booking assistant: the booking conversation, its checks and its tables

This project models the core of a clinic assistant that walks a user through
booking an appointment, one chat turn at a time. The model covers these parts:

- **The booking conversation** (`BookingFlow`, from `app.py`). A booking record
  moves through the stages service → clinic (only when several clinics match)
  → date → time → name → e-mail → phone → confirm.
  - `Next` is the pure specification of `handle_booking_flow`. `TurnNext` is
    the specification of the turn dispatcher in `chat_page`: greeting, booking
    keyword, continuation of a started booking, or a question.
  - The class `BookingSession` holds the booking in fields and updates them in
    place. Each stage method is proved to compute exactly `Next`, and `Turn`
    exactly `TurnNext`. The confirm stage calls the database class.
- **The clinic directory** (`Directory`). A clinic is a value: name,
  optional opening and closing times, closed days, and (service, price)
  pairs. The module has:
  - the service matcher, written as a method with nested loops and proved
    against a reference filter;
  - the search by clinic name;
  - the word-overlap search of `get_clinic_from_query`;
  - the exact service check.
- **The schedule checks** (`Schedule`):
  - `is_sunday`, with a Gregorian ordinal and weekday, and `strptime`-style
    parsing of `%d-%m-%Y` and `%Y-%m-%d`;
  - `normalize_time` (`%I:%M %p` and `%I %p`), with times counted in minutes
    since midnight;
  - `is_time_within_clinic_hours` and `is_clinic_open_on_date`.
- **Keyword predicates** (`Intents`). These are the booking, service-list,
  working-hours and greeting tests.
- **Field validators** (`Validators`, from `utils/validators.py`). Each regex is
  written as a character scanner and proved equal to a description of the
  regex's language under `re.match` semantics. The match is anchored at the
  start only, so trailing text is ignored.
- **Customer and booking tables** (`BookingsDb`, from `utils/bookings_db.py`
  over the schema in `utils/database.py`).
  - The tables are a value with auto-increment counters. `GetOrCreate`,
    `Save` and `AllBookings` are the pure specifications.
  - The class `BookingStore` holds the tables and updates them in place.
  - The listing is the join of bookings with customers, sorted newest first.

Supporting modules: `Text` holds ASCII lower/upper case, Python's
`str.isspace` set, `strip`, `split`, substring search and word sets.

Where the intended design and the code disagree, the model follows the code:

- The date stage rejects only Sundays, whatever the clinic lists as closed days.
  `is_clinic_open_on_date` is never called, and it too looks at Sunday only.
- `normalize_time` reads 12-hour times only. A 24-hour time such as "14:00"
  passes `is_valid_time` but never passes the hours check, so "2 PM" and
  "14:00" are not judged alike.
- `is_valid_date` rejects the year-first form that `is_sunday` reads.
  Slash dates and impossible dates pass `is_valid_date`, and they are never
  Sundays.
- A failing `save_booking_db` is not caught. The model returns `SaveFailed`
  and leaves the booking as it was.

## Model

| member | source | states |
|---|---|---|
| Validators.IsNotEmptyIffNonSpace | utils/validators.py:3-4 | a value is non-empty exactly when it has a character outside Python's whitespace set |
| Validators.IsValidEmailMatchesPattern | utils/validators.py:7-8 | the e-mail scanner accepts exactly the texts that start with non-@ characters, "@", then a non-@ run holding a dot with text on both sides; what follows is ignored |
| Validators.DatePrefixMatchesPattern | utils/validators.py:20-23 | the date scanner accepts exactly the texts starting with 1-2 digits, `-` or `/`, 1-2 digits, `-` or `/`, 4 digits |
| Validators.IsValidDateMatchesPattern | utils/validators.py:11-23 | `is_valid_date` holds iff the lower-cased, stripped text is "today", "tomorrow" or starts with the day-first date pattern |
| Validators.TwelveHourPrefixMatchesPattern | utils/validators.py:35-36 | the 12-hour scanner accepts exactly the texts starting with 1-2 digits, an optional ":" and 2 digits, an optional whitespace character, then "am" or "pm" |
| Validators.TwelveHourPatternIsGreedy | utils/validators.py:35-36 | every way of matching the 12-hour pattern is found by the scanner's greedy reading of the digit runs |
| Validators.ClockPrefixMatchesPattern | utils/validators.py:37 | the clock scanner accepts exactly the texts starting with 1-2 digits, ":" and 2 digits |
| Validators.IsValidTimeMatchesPattern | utils/validators.py:26-38 | `is_valid_time` holds iff the lower-cased, stripped text starts with either time pattern |
| Validators.DateAndTimeIgnoreCaseAndPadding | utils/validators.py:18-38 | the date and time checks give the same answer whatever the letter case and surrounding whitespace |
| Validators.PlainIsKept | utils/validators.py:18 | lower-casing and stripping leave a text without capitals or outer whitespace unchanged |
| Validators.YearFirstDateRejected | utils/validators.py:13-23 | the year-first example "2025-01-21" from the docstring is rejected |
| Validators.OutOfRangeDateAccepted | utils/validators.py:23 | "31-99-2025" is accepted: there is no range check on day or month |
| Validators.TrailingTextAccepted | utils/validators.py:23 | "31-01-2025 at noon" is accepted: text after the date is not checked |
| Validators.OutOfRangeTimeAccepted | utils/validators.py:37 | "99:99" is accepted |
| Validators.TwentyFourHourTimeAccepted | utils/validators.py:37 | the 24-hour time "14:00" is accepted |
| Validators.GluedMeridiemAccepted | utils/validators.py:35-36 | "10am", with no space before the meridiem, is accepted |
| Directory.OfferingFilter | app.py:282-286 | the match list is no longer than the directory and holds only directory clinics that offer the service |
| Directory.OfferingFilterExact | app.py:282-286 | the match list is the directory read at strictly increasing positions, and those positions are exactly the clinics offering the service: directory order, each clinic at most once |
| Directory.OfferingFilterMembers | app.py:282-286 | a clinic is matched iff it is in the directory and one of its lower-cased service names contains the search text |
| Directory.OfferingFilterEmpty | app.py:282-288 | there is no match iff no clinic offers the service |
| Directory.BlankFilterKeepsAll | app.py:282-286 | an empty search text keeps every clinic that lists a service, since it occurs in every name |
| Directory.MatchClinics | app.py:282-286 | the nested loops that append a clinic at its first matching service compute the reference match list |
| Directory.GetClinicsForService | app.py:210-220 | the result is the match list for the lower-cased, stripped service name, and holds exactly the offering clinics |
| Directory.FindClinicByName | app.py:262-266 | the result is the first clinic whose name equals the text ignoring case, and None iff there is none |
| Directory.FirstMention | app.py:60-70 | the position of the first clinic the query mentions: no clinic before it is mentioned, and the one at it is, unless it is the end |
| Directory.GetClinicFromQuery | app.py:60-70 | the result is the first clinic, in directory order, sharing at least max(1, n-1) of its n name words with the query's words, and None iff there is none |
| Directory.FindMentionedClinic | app.py:60-70 | the loop that returns at the first mentioned clinic computes the reference search |
| Directory.FirstMentionIs | app.py:60-70 | the first mention is the one position with no mention before it and a mention at it |
| Directory.NamingAClinicFindsOne | app.py:60-70 | a query containing every word of a clinic's name mentions that clinic, so the search finds a clinic |
| Directory.ExactServiceIsOffered | app.py:527-542 | a service that `is_service_available` finds by exact name is also matched by the substring search of the booking flow |
| Intents.KeywordSurvivesContext | app.py:48-57 | a text containing a keyword still contains one with any text added before and after |
| Intents.FacebookAddressIsBookingIntent | app.py:48-57 | an e-mail address at facebook.com reads as a booking request, because it contains "book" |
| Intents.ConsultationIsBookingIntent | app.py:48-57 | text holding "consultation" in any case passes both the booking test and the service question test |
| Schedule.OrdinalNextDay | app.py:194 | the day after a date has the next ordinal, and is a calendar date iff its year is at most 9999 |
| Schedule.TomorrowIsNextDay | app.py:191-194 | "tomorrow" is a Sunday iff "today" is a Sunday one day later |
| Schedule.DateRoundTrip | app.py:198-206 | every calendar date printed as `%d-%m-%Y` or `%Y-%m-%d` parses back to itself |
| Schedule.IsSundayOfPrintedDate | app.py:187-208 | a printed calendar date is a Sunday iff its Gregorian weekday is Sunday |
| Schedule.ParseDayFirstFields | app.py:198-206 | day, month and year fields joined by dashes parse to that date when it exists, and to nothing otherwise |
| Schedule.ParseYearFirstFields | app.py:198-206 | year, month and day fields joined by dashes parse to that date when it exists, and to nothing otherwise |
| Schedule.SlashDateNeverSunday | app.py:196-208 | a date written with slashes is never a Sunday |
| Schedule.NineteenthJanuary2025IsSunday | app.py:196-206 | 19 January 2025 is a Sunday in both formats |
| Schedule.TwentiethJanuary2025IsNotSunday | app.py:196-206 | 20 January 2025 is not a Sunday |
| Schedule.ThirtyFirstFebruaryIsNotSunday | app.py:196-208 | the impossible date 31-02-2025 is not a Sunday |
| Schedule.Hour24 | app.py:238-247 | a 12-hour clock hour with AM or PM gives an hour 0-23 that is before noon iff AM and agrees modulo 12 |
| Schedule.ClockMinutes | app.py:238-247 | minutes since midnight, under 1440, whose hour is the 24-hour hour and whose remainder is the minute |
| Schedule.NormalizeTime | app.py:229-249 | a time that reads gives minutes before 1440, and its upper-cased, stripped text ends in "M" |
| Schedule.NormalizePlainTime | app.py:238-247 | for normalised text, `%I:%M %p` is tried first and `%I %p` second |
| Schedule.ClockTimeRoundTrip | app.py:229-249 | every time printed as hour, ":" or ".", two-digit minutes and AM/PM reads back as its minutes since midnight |
| Schedule.HourTimeRoundTrip | app.py:229-249 | every time printed as an hour and AM/PM reads back as its minutes since midnight |
| Schedule.ReadTimeNamesMeridiem | app.py:238-249 | a time that reads contains an "m" or "M" |
| Schedule.TimeWithoutMeridiemNeverWithinHours | app.py:252-260 | a time without AM or PM never lies within any clinic's hours |
| Schedule.NineToFiveClinicAccepts | app.py:252-260 | a clinic open 09:00 AM-05:00 PM accepts "2 PM", "9:00 AM" (the opening time itself) and "5.00 PM" (the closing time itself) |
| Schedule.NineToFiveClinicRejects | app.py:252-260 | the same clinic rejects "6 PM", "8.30 AM" and "14:00" |
| Schedule.TwentyFourHourTimeRejected | app.py:252-260 | "14:00" is outside every clinic's hours |
| Schedule.MissingHoursRejectEveryTime | app.py:252-260 | a clinic whose opening or closing time is missing or does not read accepts no time |
| Schedule.OnlySundayIsClosed | app.py:268-271 | the open-on-date check closes a clinic only on Sundays, and only when it lists "Sunday" |
| BookingsDb.FindCustomer | utils/bookings_db.py:38-39 | the lookup finds a customer with this e-mail, and None iff there is none |
| BookingsDb.GetOrCreate | utils/bookings_db.py:34-52 | bookings are untouched, and the returned id belongs to a customer with this e-mail |
| BookingsDb.GetOrCreateKnown | utils/bookings_db.py:38-42 | a known e-mail returns that customer's id and changes nothing, including the stored name and phone |
| BookingsDb.GetOrCreateUnknown | utils/bookings_db.py:43-48 | an unseen e-mail adds exactly one customer row, with an id above every id issued before |
| BookingsDb.GetOrCreateKeepsWellFormed | utils/database.py:16-21 | customer e-mails stay pairwise distinct, ids keep increasing, and every booking keeps its customer |
| BookingsDb.Save | utils/bookings_db.py:55-77 | saving appends one booking row, keeps the earlier rows, and only extends the customers |
| BookingsDb.SaveAppendsOneRow | utils/bookings_db.py:55-74 | the new row has a fresh id and the id of the customer holding the record's e-mail, and copies clinic, service, date and time verbatim |
| BookingsDb.SaveKeepsWellFormed | utils/database.py:24-34 | saving keeps the table invariants |
| BookingsDb.InsertByCreatedPermutes | utils/bookings_db.py:26 | inserting a row into the listing adds exactly that row |
| BookingsDb.InsertByCreatedSorted | utils/bookings_db.py:26 | inserting a row keeps the listing newest first |
| BookingsDb.SortNewestFirstCorrect | utils/bookings_db.py:26 | the sort orders by creation time, newest first, and is a permutation |
| BookingsDb.JoinRowsOnePerBooking | utils/bookings_db.py:13-25 | the join yields one row per booking with its customer's name, e-mail and phone |
| BookingsDb.AllBookingsListing | utils/bookings_db.py:10-31 | the listing holds every booking joined with its customer, once each, newest first |
| BookingsDb.SavedBookingIsListed | utils/bookings_db.py:10-77 | after a save the listing has one more row, and it holds the saved record with the customer's data |
| BookingsDb.BookingStore.constructor | utils/database.py:11-34 | a new store holds empty tables that meet the invariants |
| BookingsDb.BookingStore.FindCustomerByEmail | utils/bookings_db.py:38-39 | the scan returns the customer the reference lookup finds |
| BookingsDb.BookingStore.GetOrCreateCustomer | utils/bookings_db.py:34-52 | the tables and the returned id are those of the pure get-or-create, and the invariants are kept |
| BookingsDb.BookingStore.SaveBooking | utils/bookings_db.py:55-77 | the tables become those of the pure save, and the invariants are kept |
| BookingsDb.BookingStore.AllBookingRows | utils/bookings_db.py:10-31 | the listing is the pure one: newest first, one row per booking |
| BookingFlow.InitBooking | app.py:141-153 | the reset state is not started and awaits nothing |
| BookingFlow.InitBookingWellFormed | app.py:141-153 | the reset state meets the conversation's invariant |
| BookingFlow.PhoneOfStrippedInput | app.py:182-183 | on stripped input the phone check is exactly ten characters, the first 6 to 9 and all digits |
| BookingFlow.WellFormedIsReady | app.py:272-440 | every booking that meets the invariant has the fields its stage needs |
| BookingFlow.ServiceStage | app.py:279-311 | the reply is "unavailable" iff no clinic offers the service, and then nothing changes; exactly one match stores the stripped service and that clinic and moves to the date stage, touching nothing else; two or more store the service and the whole match list, in directory order, as the candidates and move to the clinic stage |
| BookingFlow.ClinicStage | app.py:316-324 | the stage moves to date, with the first candidate named by the input ignoring case and no candidates left, or changes nothing and reports an invalid clinic |
| BookingFlow.FieldStage | app.py:329-389 | the date, time, name, e-mail and phone stages each store the stripped input and move on exactly one stage when their check holds, and change nothing otherwise |
| BookingFlow.AdvanceMovesOn | app.py:329-389 | accepting a field moves to the very next stage |
| BookingFlow.DateStepSpec | app.py:329-338 | a date that passes `is_valid_date` and is not a Sunday is stored and the time stage follows; any other date leaves the booking unchanged |
| BookingFlow.TimeStepSpec | app.py:343-357 | a time that passes `is_valid_time` and lies within the chosen clinic's hours is stored and the name stage follows; any other time leaves the booking unchanged |
| BookingFlow.NameStepSpec | app.py:362-368 | a name that is non-blank and not all digits is stored and the e-mail stage follows; any other name leaves the booking unchanged |
| BookingFlow.EmailStepSpec | app.py:373-379 | an address that passes `is_valid_email` is stored and the phone stage follows; any other leaves the booking unchanged |
| BookingFlow.PhoneStepSpec | app.py:384-405 | a number that passes `is_valid_phone` is stored and the confirm stage follows; any other leaves the booking unchanged |
| BookingFlow.DateStageIgnoresClosedDays | app.py:329-338 | the date stage gives the same answer whatever clinic, and so whatever closed days, the booking holds |
| BookingFlow.ConfirmStage | app.py:408-435 | "yes" in any case saves exactly the collected record, with the clinic by name, and resets whether or not the e-mail goes out; a failing save changes nothing; any other answer cancels and resets without saving |
| BookingFlow.OnlyConfirmationSaves | app.py:408-435 | a turn saves only at the confirm stage, and then it saves the collected record and resets |
| BookingFlow.ConfirmedRecordIsChecked | app.py:329-435 | a record reaching confirmation has passed every field check, and its clinic offers the service |
| BookingFlow.NextKeepsWellFormed | app.py:272-440 | every stage keeps the invariant that every stored field passed its check and the awaited stage has the fields it needs |
| BookingFlow.TurnKeepsWellFormed | app.py:585-656 | every chat turn keeps that invariant |
| BookingFlow.GreetingChangesNothing | app.py:585-586 | an exact greeting word changes nothing and saves nothing, even in the middle of a booking |
| BookingFlow.BookingKeywordRestarts | app.py:591-603 | a booking keyword with clinics loaded sets started and the service stage, touching no other field; with none loaded it changes nothing |
| BookingFlow.StartedBookingContinues | app.py:608-609 | a started booking continues when the message is neither a greeting nor a booking request |
| BookingFlow.QuestionsChangeNothing | app.py:614-656 | the question branches leave a booking that is not started unchanged and save nothing |
| BookingFlow.ConsultationQuestionStartsBooking | app.py:591-603 | a message holding "consultation" that is not a greeting never reaches the service question branch: it starts a booking, or asks for an upload when no clinics are loaded |
| BookingFlow.FacebookAddressRestartsBooking | app.py:591-609 | an e-mail address at facebook.com, typed at the e-mail stage, sends the booking back to the service stage and keeps its earlier fields |
| BookingFlow.BlankServiceMatchesEveryClinic | app.py:279-288 | a blank service answer matches every clinic that lists a service |
| BookingFlow.BookingSession.constructor | app.py:141-153 | a new session holds the reset booking |
| BookingFlow.BookingSession.Reset | app.py:141-153 | resetting puts back the reset booking |
| BookingFlow.BookingSession.ServiceStage | app.py:279-311 | the fields and reply are those of the pure service stage |
| BookingFlow.BookingSession.ClinicStage | app.py:316-324 | the candidate search loop leaves the fields and reply of the pure clinic stage |
| BookingFlow.BookingSession.DateStage | app.py:329-338 | the fields and reply are those of the pure date stage |
| BookingFlow.BookingSession.TimeStage | app.py:343-357 | the fields and reply are those of the pure time stage |
| BookingFlow.BookingSession.NameStage | app.py:362-368 | the fields and reply are those of the pure name stage |
| BookingFlow.BookingSession.EmailStage | app.py:373-379 | the fields and reply are those of the pure e-mail stage |
| BookingFlow.BookingSession.PhoneStage | app.py:384-405 | the fields and reply are those of the pure phone stage |
| BookingFlow.BookingSession.ConfirmStage | app.py:408-435 | the fields and reply are those of the pure confirm stage, and the store receives exactly the record it saves |
| BookingFlow.BookingSession.HandleBookingFlow | app.py:272-440 | one call of the booking flow is the pure `Next`, with the save applied to the store |
| BookingFlow.BookingSession.Turn | app.py:585-656 | one chat turn is the pure `TurnNext`, and the session and the store keep their invariants |

## Left out

- The Streamlit pages, sidebar, file upload and delete, knowledge-base rebuild and the clinics JSON cache are user interface and file I/O. The clinic directory is an input to each turn.
- The PDF clinic parser is not part of this model. Clinic records are given data, with names taken to be present.
- Retrieval and the language model (vector store, embeddings, `get_chat_response`) are left out. The question branches of the dispatcher only leave the booking alone.
- Sending the confirmation e-mail is network I/O. Its outcome is the parameter `emailOk`.
- SQLite connections, commits and pandas are left out. The two tables are in-memory sequences with auto-increment counters.
- BookingFlow.ConfirmStep: a raising `save_booking_db` is the parameter `dbOk`. The model leaves both the booking and the tables unchanged. A customer row committed before the booking insert fails is not modelled.
- BookingsDb.SortNewestFirst: rows with the same `created_at` keep table order. SQL leaves that order unspecified, and timestamps are the parameter `now`.
- Reply wording, emoji, `format_services_response` and `format_working_hours_response` are presentation. Replies are tags.
- The wall clock is the parameter `today`. Schedule.TomorrowIsNextDay does not cover 31 December 9999, where Python's date arithmetic overflows.
- Python's `lower`, `isdigit` and `\d` are Unicode-aware. The model covers ASCII only.
- The shadowed definitions at app.py:170-180 and app.py:222-223 are never reached. The unusable `is_service_available` at utils/validators.py:39 is also left out.
- BookingFlow.TurnNext: also defined for the empty prompt, which the chat input never hands to the dispatcher (app.py:571). Every statement about it also holds for that prompt.
- BookingsDb.BookingStore.AllBookingRows returns rows in the sorted order. It does not model the pandas data frame type.

/** The keyword tests app.py uses to classify an utterance (app.py:48-57,
    86-109, 129-135) and the greeting list of the turn dispatcher (app.py:585).
    Each keyword test lower-cases the text and asks whether any keyword occurs
    in it as a substring. */
module Intents {
  import opened Text

  const BOOKING_KEYWORDS: seq<string> :=
    ["book", "booking", "appointment", "schedule", "reserve", "slot", "consultation", "visit"]

  const SERVICE_LIST_KEYWORDS: seq<string> :=
    ["services", "available services", "what are the services", "list services", "services available"]

  const SERVICE_QUERY_KEYWORDS: seq<string> :=
    ["service", "treatment", "consultation", "checkup", "therapy", "care", "appointment for"]

  const WORKING_HOURS_KEYWORDS: seq<string> :=
    ["working hours", "opening hours", "timings", "open time", "close time"]

  const GREETINGS: seq<string> := ["hi", "hello", "hey", "good morning", "good evening"]

  /** `any(k in text.lower() for k in keywords)`. */
  predicate AnyKeyword(text: string, keywords: seq<string>) {
    exists k | 0 <= k < |keywords| :: Contains(Lower(text), keywords[k])
  }

  /** `detect_booking_intent`. */
  predicate DetectBookingIntent(text: string) {
    AnyKeyword(text, BOOKING_KEYWORDS)
  }

  /** `is_service_list_query`. */
  predicate IsServiceListQuery(text: string) {
    AnyKeyword(text, SERVICE_LIST_KEYWORDS)
  }

  /** `looks_like_service_query`. */
  predicate LooksLikeServiceQuery(text: string) {
    AnyKeyword(text, SERVICE_QUERY_KEYWORDS)
  }

  /** `is_working_hours_query`. */
  predicate IsWorkingHoursQuery(text: string) {
    AnyKeyword(text, WORKING_HOURS_KEYWORDS)
  }

  /** The greeting test of the dispatcher: the stripped, lower-cased utterance
      is one of the greeting words exactly. */
  predicate IsGreeting(cleaned: string) {
    cleaned in GREETINGS
  }

  // ---------------------------------------------------------------------------
  // Lemmas
  // ---------------------------------------------------------------------------

  /** A substring of a substring is a substring. */
  lemma ContainsTransitive(a: string, b: string, c: string)
    requires Contains(a, b) && Contains(b, c)
    ensures Contains(a, c)
  {
    var i :| 0 <= i <= |a| - |b| && OccursAt(a, b, i);
    var j :| 0 <= j <= |b| - |c| && OccursAt(b, c, j);
    assert b == a[i..i + |b|];
    var inner, outer := a[i..i + |b|][j..j + |c|], a[i + j..i + j + |c|];
    forall q | 0 <= q < |c| ensures inner[q] == outer[q] {
    }
    assert inner == outer;
    assert OccursAt(a, c, i + j);
  }

  lemma {:induction false} LowerConcat(a: string, b: string)
    ensures Lower(a + b) == Lower(a) + Lower(b)
  {
    assert |Lower(a + b)| == |Lower(a) + Lower(b)|;
  }

  /** Surrounding text never hides a keyword: if an utterance holds a keyword,
      so does every longer utterance that contains it. */
  lemma KeywordSurvivesContext(keywords: seq<string>, pre: string, s: string, post: string)
    requires AnyKeyword(s, keywords)
    ensures AnyKeyword(pre + s + post, keywords)
  {
    var k :| 0 <= k < |keywords| && Contains(Lower(s), keywords[k]);
    LowerConcat(pre, s);
    LowerConcat(pre + s, post);
    var whole := Lower(pre + s + post);
    assert whole == Lower(pre) + Lower(s) + Lower(post);
    assert OccursAt(whole, Lower(s), |pre|) by {
      assert whole[|pre|..|pre| + |s|] == Lower(s);
    }
    ContainsTransitive(whole, Lower(s), keywords[k]);
  }

  /** An e-mail address at facebook.com holds the keyword "book", so typed in the
      middle of a booking it reads as a new booking request. */
  lemma FacebookAddressIsBookingIntent()
    ensures DetectBookingIntent("asha@facebook.com")
  {
    var t := Lower("asha@facebook.com");
    assert t == "asha@facebook.com";
    assert OccursAt(t, BOOKING_KEYWORDS[0], 9);
  }

  /** The word "consultation" is both a booking keyword and a service keyword:
      text that holds it passes both tests. */
  lemma ConsultationIsBookingIntent(s: string)
    requires Contains(Lower(s), "consultation")
    ensures DetectBookingIntent(s) && LooksLikeServiceQuery(s)
  {
    assert BOOKING_KEYWORDS[6] == "consultation";
    assert SERVICE_QUERY_KEYWORDS[2] == "consultation";
  }
}

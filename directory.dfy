/** The clinic directory of app.py and the ways the booking assistant searches it:
    clinics offering a service (app.py:210-220 and the same loop inline at
    app.py:282-286), a clinic by exact name (app.py:262-266), the clinic a
    free-text question mentions (app.py:60-70), and the exact service check
    that is the effective `is_service_available` (app.py:527-542).

    The directory is the list of clinic records produced by parsing the uploaded
    documents; here it is a value passed to each query. */
module Directory {
  import opened Text

  datatype Service = Service(name: string, price: int)

  /** A parsed clinic record. Opening and closing times stay the text the
      document gave ("09:00 AM"); `None` when the document gave none. */
  datatype Clinic = Clinic(
    name: string,
    openTime: Option<string>,
    closeTime: Option<string>,
    closedDays: seq<string>,
    services: seq<Service>)

  // ---------------------------------------------------------------------------
  // Clinics offering a service
  // ---------------------------------------------------------------------------

  /** Some service of `c` has a lower-cased name containing `needle`. */
  predicate Offers(c: Clinic, needle: string) {
    exists k | 0 <= k < |c.services| :: Contains(Lower(c.services[k].name), needle)
  }

  /** Reference definition of the match list: the clinics of `dir` that offer
      `needle`, in directory order. */
  function OfferingFilter(dir: seq<Clinic>, needle: string): (m: seq<Clinic>)
    ensures |m| <= |dir|
    ensures forall c :: c in m ==> c in dir && Offers(c, needle)
  {
    if |dir| == 0 then []
    else
      var last := dir[|dir| - 1];
      OfferingFilter(dir[..|dir| - 1], needle) + (if Offers(last, needle) then [last] else [])
  }

  /** The positions of `dir` that `OfferingFilter` keeps, in increasing order. */
  function OfferingIndices(dir: seq<Clinic>, needle: string): seq<nat>
  {
    if |dir| == 0 then []
    else
      OfferingIndices(dir[..|dir| - 1], needle) + (if Offers(dir[|dir| - 1], needle) then [|dir| - 1] else [])
  }

  /** The match list is exactly the offering clinics in directory order, each
      directory entry at most once: it is `dir` read at a strictly increasing
      list of positions, and those positions are exactly the offering ones. */
  lemma {:induction false} OfferingFilterExact(dir: seq<Clinic>, needle: string)
    ensures var idx := OfferingIndices(dir, needle);
      && |idx| == |OfferingFilter(dir, needle)|
      && (forall p, q :: 0 <= p < q < |idx| ==> idx[p] < idx[q])
      && (forall p :: 0 <= p < |idx| ==> idx[p] < |dir| && OfferingFilter(dir, needle)[p] == dir[idx[p]])
      && (forall i :: 0 <= i < |dir| ==> (i in idx <==> Offers(dir[i], needle)))
  {
    OfferingIndicesIncrease(dir, needle);
    OfferingIndicesPick(dir, needle);
    OfferingIndicesMembers(dir, needle);
  }

  lemma {:induction false} OfferingIndicesIncrease(dir: seq<Clinic>, needle: string)
    ensures forall p :: 0 <= p < |OfferingIndices(dir, needle)| ==> OfferingIndices(dir, needle)[p] < |dir|
    ensures forall p, q :: 0 <= p < q < |OfferingIndices(dir, needle)| ==>
      OfferingIndices(dir, needle)[p] < OfferingIndices(dir, needle)[q]
    decreases |dir|
  {
    if |dir| > 0 {
      var init := dir[..|dir| - 1];
      OfferingIndicesIncrease(init, needle);
      var idx0, idx := OfferingIndices(init, needle), OfferingIndices(dir, needle);
      assert idx == idx0 + (if Offers(dir[|dir| - 1], needle) then [|init|] else []);
      forall p | 0 <= p < |idx|
        ensures idx[p] < |dir| && forall q :: p < q < |idx| ==> idx[p] < idx[q]
      {
        if p < |idx0| {
          assert idx[p] == idx0[p] < |init|;
        }
      }
    }
  }

  lemma {:induction false} OfferingIndicesPick(dir: seq<Clinic>, needle: string)
    ensures var idx := OfferingIndices(dir, needle);
      && |idx| == |OfferingFilter(dir, needle)|
      && (forall p :: 0 <= p < |idx| ==> idx[p] < |dir| && OfferingFilter(dir, needle)[p] == dir[idx[p]])
    decreases |dir|
  {
    if |dir| > 0 {
      var init, last := dir[..|dir| - 1], dir[|dir| - 1];
      OfferingIndicesPick(init, needle);
      var idx0, m0 := OfferingIndices(init, needle), OfferingFilter(init, needle);
      var idx, m := OfferingIndices(dir, needle), OfferingFilter(dir, needle);
      var keep := Offers(last, needle);
      assert idx == idx0 + (if keep then [|init|] else []);
      assert m == m0 + (if keep then [last] else []);
      forall p | 0 <= p < |idx|
        ensures idx[p] < |dir| && m[p] == dir[idx[p]]
      {
        if p < |idx0| {
          assert idx[p] == idx0[p] && m[p] == m0[p];
          assert init[idx0[p]] == dir[idx0[p]];
        }
      }
    }
  }

  lemma {:induction false} OfferingIndicesMembers(dir: seq<Clinic>, needle: string)
    ensures forall i :: 0 <= i < |dir| ==> (i in OfferingIndices(dir, needle) <==> Offers(dir[i], needle))
    decreases |dir|
  {
    if |dir| > 0 {
      var init, last := dir[..|dir| - 1], dir[|dir| - 1];
      OfferingIndicesMembers(init, needle);
      OfferingIndicesIncrease(init, needle);
      var idx0, idx := OfferingIndices(init, needle), OfferingIndices(dir, needle);
      assert forall p :: 0 <= p < |idx0| ==> idx0[p] < |init|;
      assert idx == idx0 + (if Offers(last, needle) then [|init|] else []);
      forall i | 0 <= i < |dir|
        ensures i in idx <==> Offers(dir[i], needle)
      {
        if i < |init| {
          assert dir[i] == init[i];
          assert i in idx <==> i in idx0;
        } else {
          assert forall p :: 0 <= p < |idx0| ==> idx0[p] != |init|;
        }
      }
    }
  }

  /** A clinic is in the match list exactly when it is in the directory and
      offers the service. */
  lemma OfferingFilterMembers(dir: seq<Clinic>, needle: string, c: Clinic)
    ensures c in OfferingFilter(dir, needle) <==> c in dir && Offers(c, needle)
  {
    if c in dir && Offers(c, needle) {
      var i :| 0 <= i < |dir| && dir[i] == c;
      OfferingFilterExact(dir, needle);
      var idx := OfferingIndices(dir, needle);
      var p :| 0 <= p < |idx| && idx[p] == i;
      assert OfferingFilter(dir, needle)[p] == c;
    }
  }

  /** No match at all exactly when no clinic offers the service. */
  lemma OfferingFilterEmpty(dir: seq<Clinic>, needle: string)
    ensures OfferingFilter(dir, needle) == [] <==> forall i :: 0 <= i < |dir| ==> !Offers(dir[i], needle)
  {
    if exists i :: 0 <= i < |dir| && Offers(dir[i], needle) {
      var i :| 0 <= i < |dir| && Offers(dir[i], needle);
      OfferingFilterMembers(dir, needle, dir[i]);
    }
  }

  /** An empty search text occurs in every service name, so it matches every
      clinic that lists at least one service. */
  lemma BlankMatchesEveryListedClinic(c: Clinic)
    ensures Offers(c, "") <==> |c.services| > 0
  {
    if |c.services| > 0 {
      ContainsEmpty(Lower(c.services[0].name));
    }
  }

  /** Filtering a directory with one more clinic at the end. */
  lemma OfferingFilterSnoc(init: seq<Clinic>, last: Clinic, needle: string)
    ensures OfferingFilter(init + [last], needle) ==
            OfferingFilter(init, needle) + (if Offers(last, needle) then [last] else [])
  {
    assert (init + [last])[..|init|] == init;
  }

  /** A blank needle keeps every clinic that lists at least one service. */
  lemma {:induction false} BlankFilterKeepsAll(dir: seq<Clinic>)
    requires forall i :: 0 <= i < |dir| ==> |dir[i].services| > 0
    ensures OfferingFilter(dir, []) == dir
    decreases |dir|
  {
    if |dir| > 0 {
      var init, last := dir[..|dir| - 1], dir[|dir| - 1];
      assert dir == init + [last];
      BlankFilterKeepsAll(init);
      BlankMatchesEveryListedClinic(last);
      OfferingFilterSnoc(init, last, []);
    }
  }

  /** The nested loops of `get_clinics_for_service` and of the service stage:
      for each clinic, scan its services and append the clinic at the first
      service whose lower-cased name contains `needle`. */
  method MatchClinics(dir: seq<Clinic>, needle: string) returns (m: seq<Clinic>)
    ensures m == OfferingFilter(dir, needle)
  {
    m := [];
    var i := 0;
    while i < |dir|
      invariant 0 <= i <= |dir|
      invariant m == OfferingFilter(dir[..i], needle)
    {
      var clinic := dir[i];
      assert dir[..i + 1][..i] == dir[..i];
      var j := 0;
      while j < |clinic.services|
        invariant 0 <= j <= |clinic.services|
        invariant forall k :: 0 <= k < j ==> !Contains(Lower(clinic.services[k].name), needle)
        invariant m == OfferingFilter(dir[..i], needle)
      {
        if Contains(Lower(clinic.services[j].name), needle) {
          m := m + [clinic];
          break;
        }
        j := j + 1;
      }
      i := i + 1;
    }
    assert dir[..|dir|] == dir;
  }

  /** `get_clinics_for_service`: the clinics offering the lower-cased, stripped
      service name. */
  method GetClinicsForService(dir: seq<Clinic>, serviceName: string) returns (m: seq<Clinic>)
    ensures forall c :: c in m <==> c in dir && Offers(c, Strip(Lower(serviceName)))
    ensures m == OfferingFilter(dir, Strip(Lower(serviceName)))
  {
    m := MatchClinics(dir, Strip(Lower(serviceName)));
    forall c ensures c in m <==> c in dir && Offers(c, Strip(Lower(serviceName))) {
      OfferingFilterMembers(dir, Strip(Lower(serviceName)), c);
    }
  }

  // ---------------------------------------------------------------------------
  // A clinic by name
  // ---------------------------------------------------------------------------

  /** The clinic's name equals `name` ignoring letter case. */
  predicate NameIs(c: Clinic, name: string) {
    Lower(c.name) == Lower(name)
  }

  /** `find_clinic_by_name`: the first clinic whose name equals `name` ignoring
      letter case. The clinic stage of the booking flow searches its candidate
      list the same way. */
  function FindClinicByName(dir: seq<Clinic>, name: string): (r: Option<Clinic>)
    ensures r.None? <==> forall i :: 0 <= i < |dir| ==> !NameIs(dir[i], name)
    ensures r.Some? ==> exists i :: 0 <= i < |dir| && dir[i] == r.value && NameIs(dir[i], name) &&
                                    forall j :: 0 <= j < i ==> !NameIs(dir[j], name)
    decreases |dir|
  {
    if |dir| == 0 then None
    else if NameIs(dir[0], name) then Some(dir[0])
    else
      var r := FindClinicByName(dir[1..], name);
      assert forall i :: 0 < i < |dir| ==> dir[i] == dir[1..][i - 1];
      r
  }

  // ---------------------------------------------------------------------------
  // The clinic a question mentions
  // ---------------------------------------------------------------------------

  function Max(a: int, b: int): int {
    if a >= b then a else b
  }

  /** The query shares at least max(1, n - 1) words with the clinic's n-word
      name, both lower-cased and split on whitespace. */
  predicate Mentions(c: Clinic, query: string) {
    var queryWords := WordSet(Lower(query));
    var clinicWords := WordSet(Lower(c.name));
    |queryWords * clinicWords| >= Max(1, |clinicWords| - 1)
  }

  /** The position of the first clinic the query mentions, `|dir|` when none. */
  function FirstMention(dir: seq<Clinic>, query: string): (i: nat)
    ensures i <= |dir|
    ensures forall j :: 0 <= j < i ==> !Mentions(dir[j], query)
    ensures i < |dir| ==> Mentions(dir[i], query)
    decreases |dir|
  {
    if |dir| == 0 || Mentions(dir[0], query) then 0
    else
      var rest := dir[1..];
      var i := FirstMention(rest, query);
      assert forall j :: 0 < j <= i ==> dir[j] == rest[j - 1];
      assert i < |rest| ==> dir[1 + i] == rest[i] && Mentions(rest[i], query);
      1 + i
  }

  /** `get_clinic_from_query`: the first clinic the query mentions. */
  function GetClinicFromQuery(dir: seq<Clinic>, query: string): (r: Option<Clinic>)
    ensures r.None? <==> forall i :: 0 <= i < |dir| ==> !Mentions(dir[i], query)
    ensures r.Some? ==> exists i :: 0 <= i < |dir| && dir[i] == r.value && Mentions(dir[i], query) &&
                                    forall j :: 0 <= j < i ==> !Mentions(dir[j], query)
  {
    var i := FirstMention(dir, query);
    if i < |dir| then Some(dir[i]) else None
  }

  /** The loop of `get_clinic_from_query`, returning at the first clinic
      whose name words the query shares. */
  method FindMentionedClinic(dir: seq<Clinic>, query: string) returns (r: Option<Clinic>)
    ensures r == GetClinicFromQuery(dir, query)
  {
    var i := 0;
    while i < |dir|
      invariant 0 <= i <= |dir|
      invariant forall j :: 0 <= j < i ==> !Mentions(dir[j], query)
    {
      if Mentions(dir[i], query) {
        FirstMentionIs(dir, query, i);
        return Some(dir[i]);
      }
      i := i + 1;
    }
    FirstMentionIs(dir, query, i);
    return None;
  }

  /** The first mention is the one position with no mention before it and a
      mention at it (or the end). */
  lemma FirstMentionIs(dir: seq<Clinic>, query: string, i: nat)
    requires i <= |dir| && forall j :: 0 <= j < i ==> !Mentions(dir[j], query)
    requires i < |dir| ==> Mentions(dir[i], query)
    ensures FirstMention(dir, query) == i
  {
  }

  /** A query that contains every word of a clinic's (non-blank) name mentions
      that clinic, so the search finds a clinic whenever one is named in full. */
  lemma NamingAClinicFindsOne(dir: seq<Clinic>, query: string, i: nat)
    requires i < |dir|
    requires !AllSpace(dir[i].name)
    requires WordSet(Lower(dir[i].name)) <= WordSet(Lower(query))
    ensures Mentions(dir[i], query)
    ensures GetClinicFromQuery(dir, query).Some?
  {
    var name := Lower(dir[i].name);
    assert !AllSpace(name) by {
      var p :| 0 <= p < |dir[i].name| && !IsSpace(dir[i].name[p]);
      assert !IsSpace(name[p]);
    }
    WordsNonEmpty(name);
    var w := Words(name)[0];
    assert w in WordSet(name);
    assert WordSet(Lower(query)) * WordSet(name) == WordSet(name);
  }

  // ---------------------------------------------------------------------------
  // Exact service check
  // ---------------------------------------------------------------------------

  /** `is_service_available` as app.py finally defines it: a non-empty name, a
      non-empty directory, and a service whose name equals it ignoring case. */
  predicate IsServiceAvailable(dir: seq<Clinic>, serviceName: string) {
    |serviceName| > 0 && |dir| > 0 &&
    exists i, k | 0 <= i < |dir| && 0 <= k < |dir[i].services| ::
      Lower(dir[i].services[k].name) == Lower(serviceName)
  }

  /** An exactly named service is also found by the substring search the
      booking flow uses. */
  lemma ExactServiceIsOffered(dir: seq<Clinic>, serviceName: string)
    requires IsServiceAvailable(dir, serviceName)
    ensures OfferingFilter(dir, Lower(serviceName)) != []
  {
    var i, k :| 0 <= i < |dir| && 0 <= k < |dir[i].services| &&
      Lower(dir[i].services[k].name) == Lower(serviceName);
    ContainsSelf(Lower(serviceName));
    assert Offers(dir[i], Lower(serviceName));
    OfferingFilterMembers(dir, Lower(serviceName), dir[i]);
  }
}

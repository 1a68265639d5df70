// The public booking form (public-booking-locations.ts, booking-professional.ts
// and the two pages that use them): location, service and professional stay
// consistent whatever order they are picked in. A location or a service is
// its id; no locations means the salon has no location step.
module Booking {
  import opened Common

  const ANY_PROFESSIONAL := "any"

  datatype ServiceLink = ServiceLink(service: Option<string>, serviceId: Option<string>)

  datatype Professional = Professional(
    id: string, locationIds: seq<string>, primaryLocationId: Option<string>, services: seq<ServiceLink>)

  datatype Salon = Salon(services: seq<string>, team: seq<Professional>, locations: seq<string>)

  // ------------------------------------------------------------- who and where

  function LinkedId(link: ServiceLink): (r: Option<string>) {
    if link.service.Some? then link.service else link.serviceId
  }

  predicate Linked(p: Professional, service: string) {
    exists link :: link in p.services && LinkedId(link) == Some(service)
  }

  function DoesService(service: string): (r: Professional -> bool) { p => Linked(p, service) }

  // The professionals linked to the service, or everyone when nobody is.
  function ProfessionalsForService(team: seq<Professional>, service: string): (r: seq<Professional>) {
    if service == "" then []
    else
      var linked := Filter(team, DoesService(service));
      if |linked| > 0 then linked else team
  }

  predicate WorksAt(p: Professional, locations: seq<string>, location: string) {
    exists id :: id in p.locationIds && id in locations && (location == "" || id == location)
  }

  function WorksThere(locations: seq<string>, location: string): (r: Professional -> bool) {
    p => WorksAt(p, locations, location)
  }

  function ProfessionalsAtLocation(team: seq<Professional>, locations: seq<string>, location: string)
    : (r: seq<Professional>)
  {
    if locations == [] then team else Filter(team, WorksThere(locations, location))
  }

  function Ids(team: seq<Professional>): (r: seq<string>) { seq(|team|, i requires 0 <= i < |team| => team[i].id) }

  function ServicesAtLocation(salon: Salon, location: string): (r: seq<string>) {
    if salon.locations == [] || location == "" then salon.services
    else
      var here := Ids(ProfessionalsAtLocation(salon.team, salon.locations, location));
      Filter(salon.services, s =>
        exists p :: p in ProfessionalsForService(salon.team, s) && p.id in here)
  }

  function OneOf(locations: seq<string>): (r: string -> bool) { id => id in locations }

  function LocationForProfessional(p: Professional, locations: seq<string>, current: string): (r: string) {
    if locations == [] then ""
    else
      var theirs := Filter(p.locationIds, OneOf(locations));
      if current != "" && current in theirs then current
      else if p.primaryLocationId.Some? && p.primaryLocationId.value != "" && p.primaryLocationId.value in theirs
        then p.primaryLocationId.value
      else if theirs != [] then theirs[0]
      else current
  }

  function FindById(team: seq<Professional>, id: string): (r: Option<Professional>) {
    if team == [] then None else if team[0].id == id then Some(team[0]) else FindById(team[1..], id)
  }

  predicate PerformsService(p: Option<Professional>, service: string, team: seq<Professional>) {
    p.Some? && service != "" && p.value.id in Ids(ProfessionalsForService(team, service))
  }

  // The services to offer when a link has pinned a professional.
  function ServicesForPinned(services: seq<string>, pinned: Option<Professional>, team: seq<Professional>)
    : (r: seq<string>)
  {
    if pinned.None? then services
    else
      var mine := Filter(services, s => PerformsService(pinned, s, team));
      if |mine| > 0 then mine else services
  }

  function ProfessionalAfterServiceChange(professional: string, service: string, team: seq<Professional>): (r: string) {
    if professional == "" then ""
    else if service == "" || professional == ANY_PROFESSIONAL then professional
    else if PerformsService(FindById(team, professional), service, team) then professional
    else ""
  }

  // What stays picked, (service, professional), at another location.
  function ChoiceAtLocation(salon: Salon, service: string, professional: string, location: string)
    : (r: (string, string))
  {
    var serviceStays := service == "" || service in ServicesAtLocation(salon, location);
    var p := FindById(salon.team, professional);
    var professionalStays := serviceStays && (professional == ANY_PROFESSIONAL
      || (p.Some? && |ProfessionalsAtLocation([p.value], salon.locations, location)| > 0));
    (if serviceStays then service else "", if professionalStays then professional else "")
  }

  // ------------------------------------------------------------- the reference

  // What the salon's data says, apart from how the form computes it.
  ghost predicate Does(team: seq<Professional>, p: Professional, service: string) {
    Linked(p, service) || !exists q :: q in team && Linked(q, service)
  }

  predicate Works(salon: Salon, p: Professional, location: string) {
    salon.locations == [] || WorksAt(p, salon.locations, location)
  }

  ghost predicate Bookable(salon: Salon, p: Professional, service: string, location: string) {
    p in salon.team && Does(salon.team, p, service) && Works(salon, p, location)
  }

  ghost predicate Offered(salon: Salon, service: string, location: string) {
    service in salon.services
      && (salon.locations == [] || location == "" || exists p :: Bookable(salon, p, service, location))
  }

  datatype Form = Form(location: string, service: string, professional: string, pinned: string)

  // A form whose three choices fit together.
  ghost predicate Consistent(salon: Salon, f: Form) {
    && (f.location == "" || f.location in salon.locations)
    && (f.service == "" || Offered(salon, f.service, f.location))
    && (f.professional == "" || f.professional == ANY_PROFESSIONAL || ProfessionalFits(salon, f))
  }

  ghost predicate ProfessionalFits(salon: Salon, f: Form) {
    exists p :: p in salon.team && p.id == f.professional && Works(salon, p, f.location)
      && (f.service == "" || Does(salon.team, p, f.service))
  }

  // Ids as the database gives them.
  predicate GoodIds(salon: Salon) {
    && (forall p :: p in salon.team ==> p.id != "" && p.id != ANY_PROFESSIONAL)
    && (forall p, q :: p in salon.team && q in salon.team && p.id == q.id ==> p == q)
    && "" !in salon.services && "" !in salon.locations
  }

  // ------------------------------------------------------ functions, by meaning

  lemma {:induction false} FindByIdFinds(team: seq<Professional>, id: string)
    ensures FindById(team, id).Some? ==> FindById(team, id).value in team && FindById(team, id).value.id == id
    ensures (exists p :: p in team && p.id == id) ==> FindById(team, id).Some?
  {
    if team != [] {
      FindByIdFinds(team[1..], id);
    }
  }

  lemma InIds(team: seq<Professional>, id: string)
    ensures id in Ids(team) <==> exists p :: p in team && p.id == id
  {
    if id in Ids(team) {
      var i :| 0 <= i < |team| && Ids(team)[i] == id;
      assert team[i] in team;
    }
    forall p | p in team && p.id == id ensures id in Ids(team) {
      var i :| 0 <= i < |team| && team[i] == p;
      assert Ids(team)[i] == id;
    }
  }

  lemma ForService(team: seq<Professional>, service: string, p: Professional)
    requires service != ""
    ensures p in ProfessionalsForService(team, service) <==> p in team && Does(team, p, service)
  {
    var linked := Filter(team, DoesService(service));
    if linked == [] {
      forall q | q in team ensures !Linked(q, service) { assert q !in linked; }
    } else {
      assert linked[0] in linked;
    }
  }

  lemma AtLocation(salon: Salon, location: string, p: Professional)
    ensures p in ProfessionalsAtLocation(salon.team, salon.locations, location) <==>
      p in salon.team && Works(salon, p, location)
    ensures |ProfessionalsAtLocation([p], salon.locations, location)| > 0 <==> Works(salon, p, location)
  {
    var alone := ProfessionalsAtLocation([p], salon.locations, location);
    assert p in [p];
    assert |alone| > 0 ==> alone[0] in alone;
    assert Works(salon, p, location) ==> p in alone;
  }

  lemma Performs(salon: Salon, p: Professional, service: string)
    requires GoodIds(salon) && p in salon.team && service != ""
    ensures PerformsService(Some(p), service, salon.team) <==> Does(salon.team, p, service)
  {
    ForService(salon.team, service, p);
    InIds(ProfessionalsForService(salon.team, service), p.id);
    forall q | q in ProfessionalsForService(salon.team, service) && q.id == p.id ensures q == p {
      ForService(salon.team, service, q);
    }
  }

  // The services shown are those the salon's data offers there.
  lemma ServicesShown(salon: Salon, location: string, service: string)
    requires GoodIds(salon) && service != ""
    ensures service in ServicesAtLocation(salon, location) <==> Offered(salon, service, location)
  {
    if salon.locations != [] && location != "" {
      var at := ProfessionalsAtLocation(salon.team, salon.locations, location);
      var who := ProfessionalsForService(salon.team, service);
      forall p ensures p in who && p.id in Ids(at) <==> Bookable(salon, p, service, location) {
        ForService(salon.team, service, p);
        AtLocation(salon, location, p);
        InIds(at, p.id);
        forall q | q in at && q.id == p.id && p in salon.team ensures q == p {
          AtLocation(salon, location, q);
        }
      }
    }
  }

  // -------------------------------------------------------------- the page

  function PageList(salon: Salon, f: Form): (r: seq<Professional>) {
    ProfessionalsAtLocation(ProfessionalsForService(salon.team, f.service), salon.locations, f.location)
  }

  function OfferedServices(salon: Salon, f: Form): (r: seq<string>) {
    ServicesForPinned(ServicesAtLocation(salon, f.location), FindById(salon.team, f.pinned), salon.team)
  }

  lemma OnPageList(salon: Salon, f: Form, p: Professional)
    requires f.service != ""
    ensures p in PageList(salon, f) <==> Bookable(salon, p, f.service, f.location)
  {
    var who := ProfessionalsForService(salon.team, f.service);
    ForService(salon.team, f.service, p);
    AtLocation(salon.(team := who), f.location, p);
  }

  // A service on offer at a chosen location always has someone to book, and a
  // service with someone to book is on offer.
  lemma NoDeadEnd(salon: Salon, f: Form)
    requires GoodIds(salon) && f.service in salon.services && f.location in salon.locations
    ensures f.service in ServicesAtLocation(salon, f.location) <==> PageList(salon, f) != []
  {
    ServicesShown(salon, f.location, f.service);
    if PageList(salon, f) != [] {
      OnPageList(salon, f, PageList(salon, f)[0]);
    }
    forall p ensures p in PageList(salon, f) <==> Bookable(salon, p, f.service, f.location) {
      OnPageList(salon, f, p);
    }
  }

  datatype Step =
    | PickLocation(location: string)
    | PickService(service: string)
    | PickProfessional(p: Professional)
    | PickAny
    | ShowEveryone
    | BookAgain

  predicate Enabled(salon: Salon, f: Form, step: Step) {
    match step
    case PickLocation(location) => salon.locations != [] && (location == "" || location in salon.locations)
    case PickService(service) => service == "" || service in OfferedServices(salon, f)
    case PickProfessional(p) => f.service != "" && p in PageList(salon, f)
    case PickAny => f.service != "" && |PageList(salon, f)| > 1 && f.pinned == ""
    case ShowEveryone => true
    case BookAgain => true
  }

  function Do(salon: Salon, f: Form, step: Step): (r: Form) {
    match step
    case PickLocation(location) =>
      var (service, professional) := ChoiceAtLocation(salon, f.service, f.professional, location);
      f.(location := location, service := service, professional := professional)
    case PickService(service) =>
      f.(service := service, professional := ProfessionalAfterServiceChange(f.professional, service, salon.team))
    case PickProfessional(p) =>
      f.(professional := p.id, location := LocationForProfessional(p, salon.locations, f.location))
    case PickAny => f.(professional := ANY_PROFESSIONAL)
    case ShowEveryone => f.(pinned := "")
    case BookAgain => f.(service := "", professional := f.pinned)
  }

  // Booking again puts the pinned professional back without asking whether
  // she works at the location that was kept.
  predicate PinFits(salon: Salon, f: Form) {
    f.pinned == "" || f.pinned == ANY_PROFESSIONAL
      || exists p :: p in salon.team && p.id == f.pinned && Works(salon, p, f.location)
  }

  lemma LocationFollows(salon: Salon, f: Form, p: Professional)
    requires f.location == "" || f.location in salon.locations
    requires Works(salon, p, f.location)
    ensures var to := LocationForProfessional(p, salon.locations, f.location);
      && Works(salon, p, to)
      && (to == "" <==> salon.locations == [] || (to == "" && "" in salon.locations))
      && (to == "" || to in salon.locations)
      && (f.location != "" ==> to == f.location)
  {
    if salon.locations != [] {
      var theirs := Filter(p.locationIds, OneOf(salon.locations));
      var id :| id in p.locationIds && id in salon.locations && (f.location == "" || id == f.location);
      assert id in theirs;
      assert theirs[0] in theirs;
    }
  }

  lemma LocationPicked(salon: Salon, f: Form, location: string)
    requires GoodIds(salon) && Consistent(salon, f) && Enabled(salon, f, PickLocation(location))
    ensures Consistent(salon, Do(salon, f, PickLocation(location)))
  {
    var after := Do(salon, f, PickLocation(location));
    if f.service != "" {
      ServicesShown(salon, location, f.service);
    }
    if after.professional != "" && after.professional != ANY_PROFESSIONAL {
      FindByIdFinds(salon.team, f.professional);
      var p := FindById(salon.team, f.professional).value;
      AtLocation(salon, location, p);
      assert p in salon.team && p.id == after.professional && Works(salon, p, after.location);
    }
  }

  lemma ServicePicked(salon: Salon, f: Form, service: string)
    requires GoodIds(salon) && Consistent(salon, f) && Enabled(salon, f, PickService(service))
    ensures Consistent(salon, Do(salon, f, PickService(service)))
  {
    var after := Do(salon, f, PickService(service));
    if service != "" {
      ServicesShown(salon, f.location, service);
    }
    if after.professional != "" && after.professional != ANY_PROFESSIONAL {
      FindByIdFinds(salon.team, f.professional);
      var p := FindById(salon.team, f.professional).value;
      if service != "" {
        Performs(salon, p, service);
      }
      assert p in salon.team && p.id == after.professional && Works(salon, p, after.location);
    }
  }

  lemma ProfessionalPicked(salon: Salon, f: Form, p: Professional)
    requires GoodIds(salon) && Consistent(salon, f) && Enabled(salon, f, PickProfessional(p))
    ensures Consistent(salon, Do(salon, f, PickProfessional(p)))
    ensures salon.locations != [] ==> Do(salon, f, PickProfessional(p)).location in salon.locations
  {
    var after := Do(salon, f, PickProfessional(p));
    OnPageList(salon, f, p);
    LocationFollows(salon, f, p);
    assert Bookable(salon, p, f.service, after.location);
  }

  // Changing location drops nothing that can still be booked there, and
  // nothing else stays.
  lemma ChangingLocationKeeps(salon: Salon, f: Form, location: string)
    requires GoodIds(salon) && Consistent(salon, f) && Enabled(salon, f, PickLocation(location))
    ensures var after := Do(salon, f, PickLocation(location));
      var stays := f.service == "" || Offered(salon, f.service, location);
      && after.service == (if stays then f.service else "")
      && (after.professional == f.professional <==>
            f.professional == "" || (stays && (f.professional == ANY_PROFESSIONAL ||
              exists p :: p in salon.team && p.id == f.professional && Works(salon, p, location))))
      && (after.professional == f.professional || after.professional == "")
  {
    if f.service != "" { ServicesShown(salon, location, f.service); }
    FindByIdFinds(salon.team, f.professional);
    var known := FindById(salon.team, f.professional);
    if known.Some? { AtLocation(salon, location, known.value); }
  }

  // Changing service keeps who does the new one too, and drops anyone else.
  lemma ChangingServiceKeeps(salon: Salon, f: Form, service: string)
    requires GoodIds(salon)
    ensures var after := Do(salon, f, PickService(service));
      && after.service == service && after.location == f.location
      && (after.professional == f.professional <==>
            f.professional == "" || f.professional == ANY_PROFESSIONAL || service == "" ||
            exists p :: p in salon.team && p.id == f.professional && Does(salon.team, p, service))
      && (after.professional == f.professional || after.professional == "")
  {
    FindByIdFinds(salon.team, f.professional);
    var known := FindById(salon.team, f.professional);
    if known.Some? && service != "" { Performs(salon, known.value, service); }
  }

  // Whoever is picked is the one asked for, for the service picked, and a
  // location already chosen is not moved.
  lemma PickedIsAsked(salon: Salon, f: Form, p: Professional)
    requires GoodIds(salon) && (f.location == "" || f.location in salon.locations)
    requires Enabled(salon, f, PickProfessional(p))
    ensures var after := Do(salon, f, PickProfessional(p));
      && after.professional == p.id && after.service == f.service
      && (f.location != "" ==> after.location == f.location)
      && Bookable(salon, p, after.service, after.location)
  {
    OnPageList(salon, f, p);
    LocationFollows(salon, f, p);
  }

  // Someone picked before any location brings her main one, when it is hers
  // and on offer.
  lemma MainLocationFirst(p: Professional, locations: seq<string>)
    requires p.primaryLocationId.Some?
    requires var main := p.primaryLocationId.value; main != "" && main in p.locationIds && main in locations
    ensures LocationForProfessional(p, locations, "") == p.primaryLocationId.value
  {
  }

  // With a professional pinned, the services on offer are the ones shown here
  // that she does; all of those shown when she does none of them.
  lemma PinnedServices(salon: Salon, f: Form, service: string)
    requires GoodIds(salon) && FindById(salon.team, f.pinned).Some?
    ensures var p := FindById(salon.team, f.pinned).value; var shown := ServicesAtLocation(salon, f.location);
      service in OfferedServices(salon, f) <==>
        && service in shown
        && (Does(salon.team, p, service) || !exists other :: other in shown && Does(salon.team, p, other))
  {
    FindByIdFinds(salon.team, f.pinned);
    var p := FindById(salon.team, f.pinned).value;
    var shown := ServicesAtLocation(salon, f.location);
    var mine := Filter(shown, s => PerformsService(Some(p), s, salon.team));
    forall other | other in shown
      ensures PerformsService(Some(p), other, salon.team) <==> Does(salon.team, p, other)
    {
      assert other in salon.services;
      Performs(salon, p, other);
    }
    assert |mine| > 0 ==> mine[0] in mine;
    assert ServicesForPinned(shown, Some(p), salon.team) == if |mine| > 0 then mine else shown;
  }

  // Every step keeps the form consistent, except booking again while a pinned
  // professional does not work at the kept location.
  lemma StepKeepsConsistent(salon: Salon, f: Form, step: Step)
    requires GoodIds(salon) && Consistent(salon, f) && Enabled(salon, f, step)
    ensures Consistent(salon, Do(salon, f, step)) <==> (step.BookAgain? ==> PinFits(salon, f))
  {
    match step {
      case PickLocation(location) => LocationPicked(salon, f, location);
      case PickService(service) => ServicePicked(salon, f, service);
      case PickProfessional(p) => ProfessionalPicked(salon, f, p);
      case _ =>
    }
  }

  // ------------------------------------------------------------------- runs

  // A run of the page; each time the client books again, the pin fits.
  ghost predicate IsRun(salon: Salon, f: Form, steps: seq<Step>)
    decreases |steps|
  {
    steps == [] || (
      && Enabled(salon, f, steps[0]) && (steps[0].BookAgain? ==> PinFits(salon, f))
      && IsRun(salon, Do(salon, f, steps[0]), steps[1..]))
  }

  function After(salon: Salon, f: Form, steps: seq<Step>): (r: Form)
    decreases |steps|
  {
    if steps == [] then f else After(salon, Do(salon, f, steps[0]), steps[1..])
  }

  lemma {:induction false} RunKeepsConsistent(salon: Salon, f: Form, steps: seq<Step>)
    requires GoodIds(salon) && Consistent(salon, f) && IsRun(salon, f, steps)
    ensures Consistent(salon, After(salon, f, steps))
    decreases |steps|
  {
    if steps != [] {
      StepKeepsConsistent(salon, f, steps[0]);
      RunKeepsConsistent(salon, Do(salon, f, steps[0]), steps[1..]);
    }
  }

  // The form a link opens; linked is the location it names, if any.
  function Start(salon: Salon, service: string, professional: string, linked: string): (r: Form) {
    var p := FindById(salon.team, professional);
    var location :=
      if linked != "" then linked
      else if p.Some? then LocationForProfessional(p.value, salon.locations, "")
      else "";
    Form(location, service, professional, if p.Some? then professional else "")
  }

  // What a caller can check of a link: the location it names has the service,
  // and its professional is known, works there and does the service.
  predicate LinkFits(salon: Salon, service: string, professional: string, linked: string) {
    && (service == "" || service in ServicesAtLocation(salon, linked))
    && (professional == "" || professional == ANY_PROFESSIONAL ||
        var p := FindById(salon.team, professional);
        && p.Some? && Works(salon, p.value, linked)
        && (service == "" || PerformsService(p, service, salon.team)))
  }

  lemma StartFits(salon: Salon, service: string, professional: string, linked: string)
    requires GoodIds(salon) && (linked == "" || linked in salon.locations)
    ensures Consistent(salon, Start(salon, service, professional, linked)) <==>
      LinkFits(salon, service, professional, linked)
  {
    var f := Start(salon, service, professional, linked);
    FindByIdFinds(salon.team, professional);
    if service != "" {
      ServicesShown(salon, linked, service);
    }
    var known := FindById(salon.team, professional);
    if known.Some? {
      var p := known.value;
      if service != "" {
        Performs(salon, p, service);
      }
      StartLocation(salon, p, linked);
      assert Works(salon, p, f.location) && Does(salon.team, p, service) ==> Bookable(salon, p, service, f.location);
    }
  }

  lemma Theirs(p: Professional, locations: seq<string>)
    ensures Filter(p.locationIds, OneOf(locations)) == [] <==> !WorksAt(p, locations, "")
  {
    var theirs := Filter(p.locationIds, OneOf(locations));
    if theirs != [] {
      assert theirs[0] in theirs;
    } else {
      assert forall id :: id in p.locationIds && id in locations ==> id in theirs;
    }
  }

  // Following a professional from an empty location ends where she works, if
  // she works anywhere.
  lemma StartLocation(salon: Salon, p: Professional, linked: string)
    requires linked == "" || linked in salon.locations
    ensures var to := if linked != "" then linked else LocationForProfessional(p, salon.locations, "");
      (Works(salon, p, to) <==> Works(salon, p, linked)) && (to == "" || to in salon.locations)
  {
    if Works(salon, p, linked) {
      LocationFollows(salon, Form(linked, "", "", ""), p);
    } else {
      Theirs(p, salon.locations);
    }
  }

  // What a link names is what the form opens with, whether it fits or not; a
  // professional the salon knows is pinned, and brings one of her locations
  // when the link names none.
  lemma LinkIsTaken(salon: Salon, service: string, professional: string, linked: string)
    requires GoodIds(salon)
    ensures var f := Start(salon, service, professional, linked);
      var known := exists p :: p in salon.team && p.id == professional;
      && f.service == service && f.professional == professional
      && f.pinned == (if known then professional else "")
      && (linked != "" || !known ==> f.location == linked)
      && (linked == "" ==> forall p :: p in salon.team && p.id == professional && WorksAt(p, salon.locations, "") ==>
            WorksAt(p, salon.locations, f.location) && f.location != "")
  {
    FindByIdFinds(salon.team, professional);
    var known := FindById(salon.team, professional);
    if known.Some? && linked == "" && WorksAt(known.value, salon.locations, "") {
      LocationFollows(salon, Form("", "", "", ""), known.value);
    }
  }

  // Main result: from any link that fits, whatever was picked in whatever
  // order, a form with a service and a professional asks for someone who does
  // the service and works at the location; with any professional, at a chosen
  // location, there is someone.
  lemma WhatIsAskedCanBeBooked(
    salon: Salon, start: Form, steps: seq<Step>, service: string, professional: string, linked: string)
    requires GoodIds(salon) && (linked == "" || linked in salon.locations)
    requires LinkFits(salon, service, professional, linked) && start == Start(salon, service, professional, linked)
    requires IsRun(salon, start, steps) && After(salon, start, steps).service != ""
    ensures var f := After(salon, start, steps);
      && (f.professional != "" && f.professional != ANY_PROFESSIONAL ==>
          exists p :: Bookable(salon, p, f.service, f.location) && p.id == f.professional)
      && (f.location != "" ==> exists p :: Bookable(salon, p, f.service, f.location))
  {
    hide Start, LinkFits, After, IsRun;
    StartFits(salon, service, professional, linked);
    RunKeepsConsistent(salon, start, steps);
  }

  // A run of the page with nothing assumed of the pin.
  ghost predicate IsAnyRun(salon: Salon, f: Form, steps: seq<Step>)
    decreases |steps|
  {
    steps == [] || (Enabled(salon, f, steps[0]) && IsAnyRun(salon, Do(salon, f, steps[0]), steps[1..]))
  }

  // Who was asked for last, and which service was picked last.
  function LastAsked(who: string, pinned: string, steps: seq<Step>): (r: string)
    decreases |steps|
  {
    if steps == [] then who
    else match steps[0]
      case PickProfessional(p) => LastAsked(p.id, pinned, steps[1..])
      case PickAny => LastAsked("any", pinned, steps[1..])
      case ShowEveryone => LastAsked(who, "", steps[1..])
      case BookAgain => LastAsked(pinned, pinned, steps[1..])
      case _ => LastAsked(who, pinned, steps[1..])
  }

  function LastService(service: string, steps: seq<Step>): (r: string)
    decreases |steps|
  {
    if steps == [] then service
    else match steps[0]
      case PickService(picked) => LastService(picked, steps[1..])
      case BookAgain => LastService("", steps[1..])
      case _ => LastService(service, steps[1..])
  }

  predicate MayDrop(step: Step) { step.PickLocation? || step.PickService? }

  // Over any run the form asks for who was picked last and the service picked
  // last, or leaves it open, which only another location, or for who another
  // service, can do. A chosen location only moves when another is picked, and
  // the pin only goes when everyone is shown.
  lemma {:induction false} LastPicksStand(salon: Salon, f: Form, who: string, service: string, steps: seq<Step>)
    requires GoodIds(salon) && IsAnyRun(salon, f, steps) && (f.location == "" || f.location in salon.locations)
    requires f.professional in {who, ""} && f.service in {service, ""}
    ensures var after := After(salon, f, steps);
      && after.professional in {LastAsked(who, f.pinned, steps), ""}
      && after.service in {LastService(service, steps), ""}
      && (f.professional == who && (forall k :: 0 <= k < |steps| ==> !MayDrop(steps[k])) ==>
            after.professional == LastAsked(who, f.pinned, steps))
      && (f.service == service && (forall k :: 0 <= k < |steps| ==> !steps[k].PickLocation?) ==>
            after.service == LastService(service, steps))
      && (f.location != "" && (forall k :: 0 <= k < |steps| ==> !steps[k].PickLocation?) ==> after.location == f.location)
      && after.pinned == (if ShowEveryone in steps then "" else f.pinned)
    decreases |steps|
  {
    if steps != [] {
      var next := Do(salon, f, steps[0]);
      var rest := steps[1..];
      assert steps == [steps[0]] + rest;
      StepKeepsPicks(salon, f, who, service, steps[0]);
      FirstPick(who, f.pinned, service, steps);
      LastPicksStand(salon, next, LastAsked(who, f.pinned, [steps[0]]), LastService(service, [steps[0]]), rest);
    }
  }

  lemma FirstPick(who: string, pinned: string, service: string, steps: seq<Step>)
    requires steps != []
    ensures LastAsked(who, pinned, steps) ==
      LastAsked(LastAsked(who, pinned, [steps[0]]), if steps[0].ShowEveryone? then "" else pinned, steps[1..])
    ensures LastService(service, steps) == LastService(LastService(service, [steps[0]]), steps[1..])
  {
    assert [steps[0]][1..] == [];
  }

  lemma StepKeepsPicks(salon: Salon, f: Form, who: string, service: string, step: Step)
    requires GoodIds(salon) && Enabled(salon, f, step) && (f.location == "" || f.location in salon.locations)
    requires f.professional in {who, ""} && f.service in {service, ""}
    ensures var after := Do(salon, f, step);
      && after.professional in {LastAsked(who, f.pinned, [step]), ""}
      && after.service in {LastService(service, [step]), ""}
      && (f.professional == who && !MayDrop(step) ==> after.professional == LastAsked(who, f.pinned, [step]))
      && (f.service == service && !step.PickLocation? ==> after.service == LastService(service, [step]))
      && (after.location == "" || after.location in salon.locations)
      && (f.location != "" && !step.PickLocation? ==> after.location == f.location)
      && after.pinned == (if step.ShowEveryone? then "" else f.pinned)
  {
    match step {
      case PickProfessional(p) =>
        PickedIsAsked(salon, f, p);
        LocationFollows(salon, f, p);
      case _ =>
    }
  }

  // What can be checked of a link before anything is picked: it pins nobody,
  // the salon has no location step, or the one pinned works at every location.
  predicate PinIsSafe(salon: Salon, pinned: string) {
    || pinned == "" || pinned == ANY_PROFESSIONAL || salon.locations == []
    || exists p :: p in salon.team && p.id == pinned
         && forall location :: location in salon.locations ==> WorksAt(p, salon.locations, location)
  }

  lemma SafePinFits(salon: Salon, f: Form)
    requires PinIsSafe(salon, f.pinned) && (f.location == "" || f.location in salon.locations)
    requires FindById(salon.team, f.pinned).Some? || f.pinned == ""
    ensures PinFits(salon, f)
  {
    FindByIdFinds(salon.team, f.pinned);
    if f.pinned != "" && salon.locations != [] {
      forall p | p in salon.team && p.id == f.pinned && WorksAt(p, salon.locations, salon.locations[0])
        ensures WorksAt(p, salon.locations, "")
      {
        var id :| id in p.locationIds && id in salon.locations;
        assert id in salon.locations && id in p.locationIds;
      }
    }
  }

  lemma {:induction false} SafePinRuns(salon: Salon, f: Form, steps: seq<Step>)
    requires GoodIds(salon) && Consistent(salon, f) && IsAnyRun(salon, f, steps)
    requires PinIsSafe(salon, f.pinned) && (FindById(salon.team, f.pinned).Some? || f.pinned == "")
    ensures IsRun(salon, f, steps)
    decreases |steps|
  {
    if steps != [] {
      SafePinFits(salon, f);
      StepKeepsConsistent(salon, f, steps[0]);
      SafePinRuns(salon, Do(salon, f, steps[0]), steps[1..]);
    }
  }

  // Main result on pins: from a link that fits, every run of the page keeps
  // the form consistent if and only if the link's pin is safe.
  lemma PinsAreSafeExactlyWhen(salon: Salon, start: Form, service: string, professional: string, linked: string)
    requires GoodIds(salon) && (linked == "" || linked in salon.locations)
    requires LinkFits(salon, service, professional, linked) && start == Start(salon, service, professional, linked)
    ensures (forall steps :: IsAnyRun(salon, start, steps) ==> Consistent(salon, After(salon, start, steps))) <==>
      PinIsSafe(salon, start.pinned)
  {
    StartFits(salon, service, professional, linked);
    FindByIdFinds(salon.team, professional);
    if PinIsSafe(salon, start.pinned) {
      forall steps | IsAnyRun(salon, start, steps) ensures Consistent(salon, After(salon, start, steps)) {
        SafePinRuns(salon, start, steps);
        RunKeepsConsistent(salon, start, steps);
      }
    } else {
      var p := FindById(salon.team, professional).value;
      var location :| location in salon.locations && !WorksAt(p, salon.locations, location);
      MoveAndBookAgain(salon, start, p, location);
    }
  }

  // To a location where the pinned professional does not work, and again.
  lemma MoveAndBookAgain(salon: Salon, f: Form, p: Professional, location: string)
    requires GoodIds(salon) && Consistent(salon, f) && p in salon.team && p.id == f.pinned
    requires location in salon.locations && !WorksAt(p, salon.locations, location)
    ensures var steps := [PickLocation(location), BookAgain];
      IsAnyRun(salon, f, steps) && !Consistent(salon, After(salon, f, steps))
  {
    var steps := [PickLocation(location), BookAgain];
    var moved := Do(salon, f, steps[0]);
    LocationPicked(salon, f, location);
    hide Consistent;
    StepKeepsConsistent(salon, moved, BookAgain);
    assert steps[1..] == [BookAgain] && steps[1..][1..] == [];
    assert IsAnyRun(salon, moved, steps[1..]);
    assert After(salon, moved, steps[1..]) == Do(salon, moved, BookAgain);
  }

  // What goes wrong otherwise: the client picks a service the pinned
  // professional does, and the form asks for her where she does not work.
  lemma MisfitPinIsKept(salon: Salon, f: Form, service: string)
    requires GoodIds(salon) && Consistent(salon, f) && !PinFits(salon, f)
    requires FindById(salon.team, f.pinned).Some? && service != ""
    requires PerformsService(FindById(salon.team, f.pinned), service, salon.team)
    ensures var asked := Do(salon, Do(salon, f, BookAgain), PickService(service));
      && asked.professional == f.pinned && asked.location == f.location && asked.service == service
      && !exists p :: Bookable(salon, p, service, f.location) && p.id == asked.professional
  {
    FindByIdFinds(salon.team, f.pinned);
  }

  const ANA := Professional("ana", ["centro"], None, [ServiceLink(None, Some("cut"))])
  const EVA := Professional("eva", ["norte"], None, [ServiceLink(None, Some("cut"))])
  const DANI := Professional("dani", [], None, [ServiceLink(None, Some("massage"))])

  // The failing family is real: Ana, pinned, works only at Centro; the client
  // moves to Norte, where Eva cuts too.
  lemma PinnedAtAnotherLocation()
    ensures var salon := Salon(["cut"], [ANA, EVA], ["centro", "norte"]);
      var start := Form("centro", "cut", "ana", "ana");
      var moved := Do(salon, start, PickLocation("norte"));
      && GoodIds(salon) && Consistent(salon, start) && Consistent(salon, moved)
      && moved.location == "norte" && moved.pinned == "ana" && !PinFits(salon, moved)
  {
    var salon := Salon(["cut"], [ANA, EVA], ["centro", "norte"]);
    var start := Form("centro", "cut", "ana", "ana");
    TeamOf(salon, ANA, EVA);
    WhereTheyWork();
    assert Bookable(salon, ANA, "cut", "centro") by {
      assert ServiceLink(None, Some("cut")) in ANA.services;
    }
    assert "cut" in salon.services && "centro" in salon.locations && "norte" in salon.locations;
    LocationPicked(salon, start, "norte");
  }

  lemma TeamOf(salon: Salon, p: Professional, q: Professional)
    requires salon.team == [p, q]
    ensures p in salon.team && q in salon.team
    ensures forall x :: x in salon.team ==> x == p || x == q
  {
    assert salon.team[0] == p && salon.team[1] == q;
  }

  lemma WhereTheyWork()
    ensures WorksAt(ANA, ["centro", "norte"], "centro") && WorksAt(ANA, ["centro", "norte"], "")
    ensures !WorksAt(ANA, ["centro", "norte"], "norte")
    ensures forall location :: !WorksAt(DANI, ["centro", "norte"], location)
  {
    assert "centro" in ANA.locationIds && "centro" in ["centro", "norte"];
  }

  // ------------------------------------------------------------- the widget

  // The embedded widget narrows in the other order: first who is here, then
  // who does the service.
  function WidgetList(salon: Salon, f: Form): (r: seq<Professional>) {
    var here := ProfessionalsAtLocation(salon.team, salon.locations, f.location);
    if f.service != "" then ProfessionalsForService(here, f.service) else here
  }

  lemma {:induction false} FiltersCommute(s: seq<Professional>, p: Professional -> bool, q: Professional -> bool)
    ensures Filter(Filter(s, p), q) == Filter(Filter(s, q), p)
  {
    if s != [] {
      FiltersCommute(s[1..], p, q);
      var x := [s[0]];
      var a, b := Filter(s[1..], p), Filter(s[1..], q);
      assert (x + a)[1..] == a && (x + b)[1..] == b;
    }
  }

  // The two orders give the same list exactly when someone can be booked for
  // the service, or nobody is here at all.
  lemma ListsAgree(salon: Salon, f: Form)
    requires f.service != ""
    ensures WidgetList(salon, f) == PageList(salon, f) <==>
      PageList(salon, f) != [] || ProfessionalsAtLocation(salon.team, salon.locations, f.location) == []
  {
    var linked := Filter(salon.team, DoesService(f.service));
    if salon.locations != [] {
      var here := Filter(salon.team, WorksThere(salon.locations, f.location));
      FiltersCommute(salon.team, DoesService(f.service), WorksThere(salon.locations, f.location));
      if linked == [] {
        assert Filter(here, DoesService(f.service)) == [];
      }
    }
  }

  // Picking one of the widget's professionals fits the form exactly when no
  // service is picked or the page would have had someone to offer.
  lemma WidgetPickFits(salon: Salon, f: Form, p: Professional)
    requires GoodIds(salon) && Consistent(salon, f) && p in WidgetList(salon, f)
    ensures Consistent(salon, f.(professional := p.id, location := LocationForProfessional(p, salon.locations, f.location)))
      <==> f.service == "" || PageList(salon, f) != []
  {
    var after := f.(professional := p.id, location := LocationForProfessional(p, salon.locations, f.location));
    AtLocation(salon, f.location, p);
    var here := ProfessionalsAtLocation(salon.team, salon.locations, f.location);
    if f.service != "" {
      ForService(here, f.service, p);
      assert p in here;
    }
    LocationFollows(salon, f, p);
    if f.service != "" {
      if PageList(salon, f) != [] {
        ListsAgree(salon, f);
        OnPageList(salon, f, p);
        assert Bookable(salon, p, f.service, after.location);
      } else {
        OnPageList(salon, f, p);
        assert !Does(salon.team, p, f.service);
        forall q | q in salon.team && q.id == p.id ensures q == p { }
      }
    }
  }

  // The failing family is real: only Dani, who has no location, does the
  // massage; with no location picked the widget offers Ana for it.
  lemma WidgetOffersAnyone()
    ensures var salon := Salon(["cut", "massage"], [ANA, DANI], ["centro", "norte"]);
      var f := Form("", "massage", "", "");
      && GoodIds(salon) && Consistent(salon, f)
      && PageList(salon, f) == [] && ANA in WidgetList(salon, f) && !Does(salon.team, ANA, "massage")
  {
    var salon := Salon(["cut", "massage"], [ANA, DANI], ["centro", "norte"]);
    var f := Form("", "massage", "", "");
    TeamOf(salon, ANA, DANI);
    WhereTheyWork();
    assert ServiceLink(None, Some("massage")) in DANI.services;
    assert Linked(DANI, "massage") && !Linked(ANA, "massage");
    assert "massage" in salon.services;
    NobodyListed(salon, f);
    WidgetShows(salon, f, ANA);
  }

  lemma WidgetShows(salon: Salon, f: Form, p: Professional)
    requires f.service != "" && p in salon.team
    requires forall q :: q in salon.team && Works(salon, q, f.location) <==> q == p
    ensures p in WidgetList(salon, f)
  {
    var here := ProfessionalsAtLocation(salon.team, salon.locations, f.location);
    forall q ensures q in here <==> q == p { AtLocation(salon, f.location, q); }
    ForService(here, f.service, p);
  }

  lemma NobodyListed(salon: Salon, f: Form)
    requires f.service != "" && forall p :: !Bookable(salon, p, f.service, f.location)
    ensures PageList(salon, f) == []
  {
    hide *;
    if PageList(salon, f) != [] {
      OnPageList(salon, f, PageList(salon, f)[0]);
    }
  }
}

/** The appointment search bar of the mobile client: the user picks a role
    (`Technician`, `Customer` or `All`) and types a national id; the shown
    appointments become those whose technician's or customer's id matches.
    Alerts are returned as messages. */
module SearchBar {
  import opened Common

  /** The populated references of an appointment card. */
  datatype CustomerRef = CustomerRef(id: string, name: string, countryId: string)
  datatype TechnicianRef = TechnicianRef(id: string, userName: string, userCountryId: string)

  /** An appointment as the card shows it; either reference may be absent. */
  datatype Card = Card(id: string, customer: Option<CustomerRef>, technician: Option<TechnicianRef>,
                       scheduledTime: string)

  /** The screen after pressing Search: an alert, if any, and the shown cards. */
  datatype SearchState = SearchState(alert: Option<string>, shown: seq<Card>)

  const TechnicianOption: string := "Technician"
  const CustomerOption: string := "Customer"
  const AllOption: string := "All"
  const Options: seq<string> := [TechnicianOption, CustomerOption, AllOption]

  const SelectRole: string := "Please select a role"
  const EnterId: string := "Please enter a valid Id"

  /** `app.technicianId?.userId.country_id.toString() === id` */
  predicate TechnicianMatches(c: Card, id: string)
  {
    c.technician.Some? && c.technician.value.userCountryId == id
  }

  /** `app.customerId?.country_id.toString() === id` */
  predicate CustomerMatches(c: Card, id: string)
  {
    c.customer.Some? && c.customer.value.countryId == id
  }

  /** The filter predicate chosen by the role; any role other than the first
      two searches both. */
  function Matches(role: string, id: string): Card -> bool
  {
    (c: Card) =>
      if role == TechnicianOption then TechnicianMatches(c, id)
      else if role == CustomerOption then CustomerMatches(c, id)
      else TechnicianMatches(c, id) || CustomerMatches(c, id)
  }

  /** `getCards`: without a role, then without an id, only an alert is
      raised and the shown cards stay as they were; otherwise the shown
      cards are the matching appointments, in their order. */
  function GetCards(role: Option<string>, id: string, appointments: seq<Card>, shown: seq<Card>): (r: SearchState)
    ensures (role.None? || role.value == "") ==> r == SearchState(Some(SelectRole), shown)
    ensures role.Some? && role.value != "" && id == "" ==> r == SearchState(Some(EnterId), shown)
    ensures r.alert.None? <==> role.Some? && role.value != "" && id != ""
    ensures r.alert.None? ==>
              (forall c :: c in r.shown <==> c in appointments && Matches(role.value, id)(c))
  {
    if role.None? || role.value == "" then SearchState(Some(SelectRole), shown)
    else if id == "" then SearchState(Some(EnterId), shown)
    else
      var found := Filter(appointments, Matches(role.value, id));
      assert forall c :: c in appointments && Matches(role.value, id)(c) ==> c in found by {
        forall c | c in appointments && Matches(role.value, id)(c) ensures c in found {
          var j :| 0 <= j < |appointments| && appointments[j] == c;
        }
      }
      SearchState(None, found)
  }

  /** The results keep the appointments' order. */
  lemma ResultsInOrder(role: string, id: string, appointments: seq<Card>, shown: seq<Card>)
    requires role != "" && id != ""
    ensures IsSubsequence(GetCards(Some(role), id, appointments, shown).shown, appointments)
  {
    FilterIsSubsequence(appointments, Matches(role, id));
  }

  /** What each role keeps. */
  lemma RoleFilters(role: string, id: string, appointments: seq<Card>, shown: seq<Card>, c: Card)
    requires role != "" && id != "" && c in appointments
    ensures role == TechnicianOption ==>
              (c in GetCards(Some(role), id, appointments, shown).shown <==> TechnicianMatches(c, id))
    ensures role == CustomerOption ==>
              (c in GetCards(Some(role), id, appointments, shown).shown <==> CustomerMatches(c, id))
    ensures role != TechnicianOption && role != CustomerOption ==>
              (c in GetCards(Some(role), id, appointments, shown).shown <==>
                 TechnicianMatches(c, id) || CustomerMatches(c, id))
  {
  }

  /** Searching `All` finds exactly what searching `Technician` or
      `Customer` finds. */
  lemma AllIsUnion(id: string, appointments: seq<Card>, shown: seq<Card>, c: Card)
    requires id != ""
    ensures c in GetCards(Some(AllOption), id, appointments, shown).shown <==>
              c in GetCards(Some(TechnicianOption), id, appointments, shown).shown ||
              c in GetCards(Some(CustomerOption), id, appointments, shown).shown
  {
  }
}

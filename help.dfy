/** The help centre: a searchable FAQ list with one answer open at a time, and
    the support-ticket form. */
module Help {
  import opened Wrappers
  import opened Text
  import opened Query

  datatype Faq = Faq(id: int, question: string, answer: string, category: string)

  datatype Priority = Low | Medium | High

  datatype Ticket = Ticket(subject: string, description: string, category: string, priority: Priority)

  /** The form as it starts and as a submission leaves it. */
  const DefaultTicket := Ticket("", "", "general", Medium)

  // ---------------------------------------------------------------------------
  // The FAQ list

  function Matching(term: string, selectedCategory: string): Faq -> bool {
    (f: Faq) =>
      && (ContainsIgnoringCase(f.question, term) || ContainsIgnoringCase(f.answer, term))
      && (selectedCategory == "all" || f.category == selectedCategory)
  }

  function FilteredFaqs(faqs: seq<Faq>, term: string, selectedCategory: string): seq<Faq> {
    Filter(faqs, Matching(term, selectedCategory))
  }

  /** An entry is listed exactly when the question or the answer contains the
      term ignoring case and its category is chosen; with no search and "all"
      the whole list shows. */
  lemma FilteredFaqsSpec(faqs: seq<Faq>, term: string, selectedCategory: string, f: Faq)
    ensures f in FilteredFaqs(faqs, term, selectedCategory) <==>
            && f in faqs
            && (ContainsIgnoringCase(f.question, term) || ContainsIgnoringCase(f.answer, term))
            && (selectedCategory == "all" || f.category == selectedCategory)
    ensures FilteredFaqs(faqs, "", "all") == faqs
  {
    FilterMembership(faqs, Matching(term, selectedCategory), f);
    forall k | 0 <= k < |faqs| ensures Matching("", "all")(faqs[k]) {
      EmptyIsContainedIgnoringCase(faqs[k].question);
    }
    FilterKeepsAll(faqs, Matching("", "all"));
  }

  function CategoryOf(f: Faq): string { f.category }

  function Categories(faqs: seq<Faq>): seq<string> {
    Distinct(Column(faqs, CategoryOf))
  }

  /** Every category appears once, nothing else does, in order of first appearance. */
  lemma CategoriesSpec(faqs: seq<Faq>, i: nat, j: nat)
    ensures NoDuplicates(Categories(faqs))
    ensures forall k :: 0 <= k < |faqs| ==> faqs[k].category in Categories(faqs)
    ensures forall k :: 0 <= k < |Categories(faqs)| ==>
              exists m :: 0 <= m < |faqs| && faqs[m].category == Categories(faqs)[k]
    ensures i < j < |Categories(faqs)| ==>
              FirstIndex(Column(faqs, CategoryOf), Categories(faqs)[i]) < FirstIndex(Column(faqs, CategoryOf), Categories(faqs)[j])
  {
    DistinctColumnSpec(faqs, CategoryOf, i, j);
  }

  // ---------------------------------------------------------------------------
  // Opening and closing answers

  /** A click on a question: the open one closes, any other opens in its place. */
  function Toggle(expanded: Option<int>, id: int): (r: Option<int>)
    ensures r == Some(id) <==> expanded != Some(id)
    ensures r.Some? ==> r.value == id
  {
    if expanded == Some(id) then None else Some(id)
  }

  predicate IsExpanded(expanded: Option<int>, f: Faq) {
    expanded == Some(f.id)
  }

  /** After a click at most the clicked entry is open: two entries with
      different ids are never open together. */
  lemma AtMostOneExpanded(expanded: Option<int>, id: int, f: Faq, g: Faq)
    requires f.id != g.id
    ensures !(IsExpanded(Toggle(expanded, id), f) && IsExpanded(Toggle(expanded, id), g))
    ensures IsExpanded(Toggle(expanded, id), f) ==> f.id == id
  {
  }

  /** Two clicks on the same question: an entry that was open is open again,
      otherwise everything is closed. */
  lemma ToggleTwice(expanded: Option<int>, id: int)
    ensures Toggle(Toggle(expanded, id), id) == if expanded == Some(id) then expanded else None
  {
  }

  // ---------------------------------------------------------------------------
  // The support ticket

  /** "Créer le ticket" is enabled when both the subject and the description are filled in. */
  predicate SubmitEnabled(t: Ticket) {
    t.subject != "" && t.description != ""
  }

  datatype TicketField = Subject | Description | Category

  /** The form inputs: each replaces one field of the ticket. */
  function EditTicket(t: Ticket, field: TicketField, value: string): (r: Ticket)
    ensures r.priority == t.priority
    ensures r.subject == (if field == Subject then value else t.subject)
    ensures r.description == (if field == Description then value else t.description)
    ensures r.category == (if field == Category then value else t.category)
  {
    match field
    case Subject => t.(subject := value)
    case Description => t.(description := value)
    case Category => t.(category := value)
  }

  /** The button turns on once the subject and the description have been typed,
      and a submission turns it off again. */
  lemma SubmitEnabledAfterTyping(t: Ticket, subject: string, description: string)
    requires subject != "" && description != ""
    ensures SubmitEnabled(EditTicket(EditTicket(t, Subject, subject), Description, description))
    ensures !SubmitEnabled(DefaultTicket)
  {
  }

  // ---------------------------------------------------------------------------
  // The page state

  class Page {
    const faqs: seq<Faq>
    var searchTerm: string
    var selectedCategory: string
    var expandedFaq: Option<int>
    var supportTicket: Ticket
    var ticketSubmitted: bool

    constructor (entries: seq<Faq>)
      ensures faqs == entries && searchTerm == "" && selectedCategory == "all"
      ensures expandedFaq == None && supportTicket == DefaultTicket && !ticketSubmitted
    {
      faqs := entries;
      searchTerm := "";
      selectedCategory := "all";
      expandedFaq := None;
      supportTicket := DefaultTicket;
      ticketSubmitted := false;
    }

    function Filtered(): seq<Faq>
      reads this
    {
      FilteredFaqs(faqs, searchTerm, selectedCategory)
    }

    method ToggleFaq(id: int)
      modifies this
      ensures expandedFaq == Toggle(old(expandedFaq), id)
      ensures searchTerm == old(searchTerm) && selectedCategory == old(selectedCategory)
      ensures supportTicket == old(supportTicket) && ticketSubmitted == old(ticketSubmitted)
    {
      expandedFaq := if expandedFaq == Some(id) then None else Some(id);
    }

    method EditField(field: TicketField, value: string)
      modifies this
      ensures supportTicket == EditTicket(old(supportTicket), field, value)
      ensures expandedFaq == old(expandedFaq) && ticketSubmitted == old(ticketSubmitted)
      ensures searchTerm == old(searchTerm) && selectedCategory == old(selectedCategory)
    {
      supportTicket := EditTicket(supportTicket, field, value);
    }

    method SetPriority(priority: Priority)
      modifies this
      ensures supportTicket == old(supportTicket).(priority := priority)
      ensures expandedFaq == old(expandedFaq) && ticketSubmitted == old(ticketSubmitted)
      ensures searchTerm == old(searchTerm) && selectedCategory == old(selectedCategory)
    {
      supportTicket := supportTicket.(priority := priority);
    }

    /** `handleTicketSubmit`: the ticket is marked sent and the form is reset. */
    method HandleTicketSubmit()
      modifies this
      ensures ticketSubmitted && supportTicket == DefaultTicket
      ensures !SubmitEnabled(supportTicket)
      ensures expandedFaq == old(expandedFaq)
      ensures searchTerm == old(searchTerm) && selectedCategory == old(selectedCategory)
    {
      ticketSubmitted := true;
      supportTicket := DefaultTicket;
    }
  }
}

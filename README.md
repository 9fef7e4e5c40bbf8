# University library front-end: a verified model of its page logic

The system is the web front-end of a university library. It runs on mock data:
students browse the catalogue and manage their loans, and administrators manage
loans, users and books. Every page keeps its data in component state. Its
handlers change that state, and derived views compute filtered, sorted and
counted lists from it.

This project models that logic in Dafny, one module per page:

- **AdminBorrowings**: the administrator's loan screen. It has the search and
  status filter, and counters that partition the list. Forced return goes
  through a confirmation dialog. Renewal is capped by each loan's
  `maxRenewals`. It also has the due-soon highlight and the conditions under
  which each action is offered.
- **MyBorrowings**: the student's loan list. It has a status filter and a sort
  by due date, borrowing date, title or author. Return records a return date.
  Renewal moves the due date to thirty days from today, and nothing in the
  handler itself stops it past two renewals. It also shows a due-date note.
- **Dashboard**: the loans not yet returned, with return, renewal and the
  due-date label. Its return does not record a return date.
- **Notifications**: mark one as read, mark all as read, delete, clear the read
  ones, a filtered view, two counters and the relative age "Il y a …".
- **AdminUsers**: search and three dropdowns, the department list, suspend and
  reactivate, delete through a confirmation dialog, and the summary counts.
- **AdminBooks**: search and two dropdowns, the category list, and column
  sorting with an ascending/descending toggle. It also has deletion through a
  confirmation dialog, the copy totals and the low-stock count.
- **Catalog**: the public catalogue. It has search, a genre filter, a sort
  dropdown, the genre list and the borrow button.
- **Help**: the FAQ search, one answer open at a time, and the support-ticket
  form.
- **Settings**: notification and privacy switches, appearance choices, the
  save message and the password-change form.
- **Profile**: the edit form with submit and cancel, the initials and the role
  label.

Modules shared by the pages:

- **Text**: lower-casing, `includes`, decimal rendering of counts, and
  `split(' ')` with initials.
- **Query**: `Array.filter`, `Array.from(new Set(...))`, and a stable
  `Array.sort`.
- **Loans**: day and millisecond arithmetic, the thirty-day loan period, the
  two-renewal limit of the student views, and the status labels.
- **Accounts**: roles and the role label.
- **Wrappers**: `Option`, and the truthiness test the dialogs apply to a
  selected id.

Each page is a `class` whose fields are the page's state variables. Each
handler is a method that says the new value of every field. The derived views
and the effect of a handler are functions of the state. The lemmas beside them
prove what the page shows.

Conventions of the model:

- **Dates.** A calendar date such as `2024-12-15` is a day number. The current
  time is a millisecond timestamp passed in as `nowMs`. "Today" is the UTC day
  it falls in.
- **Comparisons.** `localeCompare` is a parameter. Sort orders are proved
  whenever that parameter is a total preorder. Facts that need the language's
  notion of a consistent comparator (`Query.IsConsistent`: a total preorder
  whose sign flips when the arguments are swapped) assume that of it.
- **Stable sort.** `Array.sort` is stable, and it is modelled by a stable
  insertion sort.
- **In-place sorts.** The catalogue and my-borrowings effects sort their
  working array in place. When no filter applies, that array is the state
  list itself, so the model reorders the state list too.

How the three loan screens differ:

- On the administrator's screen, renewal
  - checks the cap,
  - extends the old due date by thirty days,
  - and marks the loan renewed.
- On the student screens, renewal
  - does not check the counter,
  - sets the due date to today plus thirty days,
  - and keeps the status.
- The two renewal limits hold only because the buttons are hidden.
  `AdminBorrowings.OfferedRenewalSucceeds` and
  `MyBorrowings.OfferedRenewalKeepsLimit` prove the limit for renewals the page
  offers. `MyBorrowings.RenewHasNoCap` and `AdminBorrowings.RenewIgnoresStatus`
  show what the handlers do when called directly.
- The administrator's book table is meant to show the reverse order when the
  direction is toggled on the same column. The code re-sorts the filtered
  list with a stable sort instead, so books that tie in the column keep their
  relative order in both directions. `AdminBooks.DescendingReversesAscending`
  proves the exact reversal when the column tells every two books apart, and
  `AdminBooks.TiesKeepOrderBothWays` shows two tied books listed in the same
  order both ways. The model follows the code.
- The "Action requise" notification filter lists entries that are already
  read. The pending-action counter does not count them, and
  `Notifications.ActionFilterShowsReadEntries` exhibits this.

## Model

| member | source | states |
|---|---|---|
| Accounts.RoleLabel | app/profile/page.tsx:164 | "Administrateur" exactly for an administrator and "Étudiant" exactly for a student |
| Text.LowerChar | app/admin/users/page.tsx:102-104 | upper-case ASCII letters move down by 32, every other character is kept, and no result is an upper-case letter |
| Text.Lower | app/admin/users/page.tsx:102-104 | same length, each character lowered on its own |
| Text.LowerIdempotent | app/admin/users/page.tsx:102-104 | lowering twice is lowering once |
| Text.ContainsIff | app/admin/borrowings/page.tsx:118 | `includes` holds exactly when the term occurs at some offset |
| Text.EmptyIsContained | app/admin/borrowings/page.tsx:118 | the empty term is contained in every string |
| Text.EmptyIsContainedIgnoringCase | app/admin/users/page.tsx:102-104 | the empty search matches every string ignoring case |
| Text.NatToString | app/dashboard/page.tsx:289 | a non-empty string of decimal digits |
| Text.DecimalRoundTrip | app/dashboard/page.tsx:289 | reading the rendered digits back gives the number |
| Text.NatToStringInjective | app/dashboard/page.tsx:289 | different numbers render differently |
| Text.LeadingDigits | app/dashboard/page.tsx:289 | the leading digit run is no longer than the string |
| Text.NumberInContext | app/dashboard/page.tsx:289-290 | a number between a common prefix and a tail not starting with a digit is read back uniquely, tail included |
| Text.PluralS | app/dashboard/page.tsx:289 | "s" exactly when the count exceeds one, "" otherwise |
| Text.Split | app/profile/page.tsx:153 | `split(' ')` gives at least one word and no word holds a space |
| Text.JoinSplit | app/profile/page.tsx:153 | joining the words with spaces gives the string back |
| Text.WordStartsSplit | app/profile/page.tsx:153 | the first characters of the split words are the characters that start words |
| Text.InitialsAreWordStarts | app/profile/page.tsx:153 | the initials are exactly the non-space characters at the start or after a space |
| Query.Filter | app/admin/borrowings/page.tsx:114-123 | no longer than the input, and every kept element satisfies the predicate |
| Query.FilterCons | app/dashboard/page.tsx:270 | the filter of a list is the head if it passes, then the filtered tail |
| Query.FilterAppend | app/dashboard/page.tsx:270 | filtering distributes over concatenation, so relative order is kept |
| Query.FilterMembership | app/admin/borrowings/page.tsx:114-123 | an element is kept exactly when it is in the input and satisfies the predicate |
| Query.FilterMultiplicity | app/admin/borrowings/page.tsx:114-123 | each kept element appears as often as in the input, the others not at all |
| Query.FilterKeepsAll | app/admin/borrowings/page.tsx:114-123 | a predicate every element satisfies keeps the whole list |
| Query.FilterKeepsNone | app/notifications/page.tsx:174 | a predicate no element satisfies keeps nothing |
| Query.FilterIdempotent | app/notifications/page.tsx:159-161 | filtering twice by the same predicate is filtering once |
| Query.FilterFilter | app/books/page.tsx:108-117 | two filters in a row keep what their conjunction keeps |
| Query.FilterPartition3 | app/admin/borrowings/page.tsx:177-182 | three predicates exactly one of which holds per element split the length |
| Query.FilterPartition2 | app/admin/users/page.tsx:168-169 | two complementary predicates split the length |
| Query.FilterMonotone | app/notifications/page.tsx:174-175 | a weaker predicate keeps at least as many elements |
| Query.FirstIndex | app/admin/users/page.tsx:99 | the position of the first occurrence |
| Query.Distinct | app/admin/users/page.tsx:99 | `Array.from(new Set(s))`: no duplicates, nothing new, nothing lost |
| Query.FirstIndexUnique | app/admin/users/page.tsx:99 | an index of an element holding no earlier copy is its first index |
| Query.DistinctFirstAppearance | app/admin/users/page.tsx:99 | the distinct values come in order of first appearance |
| Query.SortBy | app/my-borrowings/page.tsx:103-116 | the sorted list has the input's length |
| Query.SortByPermutation | app/my-borrowings/page.tsx:103-116 | sorting is a permutation |
| Query.SortBySorted | app/my-borrowings/page.tsx:103-116 | under a total preorder every earlier element compares at most equal to every later one |
| Query.SortByKeepsSorted | app/my-borrowings/page.tsx:103-116 | a list already in order (for instance, under a comparator that is always 0) is left as it is, since the sort is stable |
| Query.SortByIdempotent | app/my-borrowings/page.tsx:103-116 | sorting twice is sorting once |
| Query.SortedUnique | app/admin/books/page.tsx:98-113 | under a comparator whose sign flips with its arguments and that ties no two different elements, two sorted permutations of a list are equal |
| Query.SortByReversed | app/admin/books/page.tsx:98-113 | sorting with the arguments of a consistent comparator swapped gives exactly the reverse order, when no two different elements tie |
| Query.Column | app/admin/users/page.tsx:99 | `map` of a field: same length, each entry the field of the element at its place |
| Query.DistinctColumnSpec | app/admin/users/page.tsx:99 | the distinct values of a column: each value of some element once, nothing else, in order of first appearance |
| Loans.CeilDiv | app/dashboard/page.tsx:108 | `Math.ceil(a / b)`: the least r with a <= b * r |
| Loans.FloorDiv | app/notifications/page.tsx:180 | `Math.floor(a / b)`: the greatest r with b * r <= a |
| Loans.StartOfDayOrder | app/my-borrowings/page.tsx:106 | comparing the first instants of two days (`getTime()` of the dates) orders them as the days |
| Loans.Today | app/my-borrowings/page.tsx:160 | `toISOString().split('T')[0]`: the day whose first instant is at or before now and whose successor's is after |
| Loans.DaysUntilDue | app/dashboard/page.tsx:104-110 | the time left until the due day begins, divided by one day and rounded up |
| Loans.DaysUntilDueFromToday | app/dashboard/page.tsx:104-110 | a loan due n days after today has exactly n days left at any time of day |
| Loans.DaysUntilDueNegative | app/dashboard/page.tsx:104-110 | the count is negative exactly when the day after the due day has begun |
| Loans.StatusText | app/dashboard/page.tsx:125-136 | the French label of each status, and "Inconnu" exactly for any other string |
| Loans.StatusTextInjective | app/my-borrowings/page.tsx:142-153 | every status a record carries has its own label |
| AdminBorrowings.FilteredBorrowingsSpec | app/admin/borrowings/page.tsx:114-123 | a loan is shown exactly when name, e-mail, student number or title contains the term ignoring case, or the ISBN contains it as typed, and the status matches or is "all"; multiplicities are kept |
| AdminBorrowings.UnfilteredShowsAll | app/admin/borrowings/page.tsx:114-123 | an empty search with "all" shows the whole list |
| AdminBorrowings.ComputeStats | app/admin/borrowings/page.tsx:177-182 | active (active or renewed) + overdue + returned = total |
| AdminBorrowings.ReturnLoan | app/admin/borrowings/page.tsx:149-158 | the loans with the id become returned with today's return date; length, order and every other loan unchanged |
| AdminBorrowings.RenewLoan | app/admin/borrowings/page.tsx:161-175 | under the cap the loan with the id is renewed, counted once more and due thirty days after its old due date; at the cap it is unchanged; every other loan unchanged |
| AdminBorrowings.RenewKeepsCap | app/admin/borrowings/page.tsx:163-169 | renewal never takes a counter past its cap and raises it by at most one |
| AdminBorrowings.ReturnKeepsCap | app/admin/borrowings/page.tsx:149-158 | returning keeps every counter within its cap |
| AdminBorrowings.RenewTimesCount | app/admin/borrowings/page.tsx:161-175 | n renewals in a row raise the counter to min(count + n, cap) |
| AdminBorrowings.ReturnKeepsReturnDateInvariant | app/admin/borrowings/page.tsx:149-158 | a return keeps "return date present exactly when returned" |
| AdminBorrowings.RenewKeepsReturnDateInvariant | app/admin/borrowings/page.tsx:161-175 | a renewal of a loan the screen offers it for keeps that invariant |
| AdminBorrowings.RenewIgnoresStatus | app/admin/borrowings/page.tsx:161-175 | called on a returned loan under its cap, the handler marks it renewed and breaks the invariant |
| AdminBorrowings.NearDueWindow | app/admin/borrowings/page.tsx:306 | highlighted as due soon exactly from three days before the due day begins until it begins, unless returned |
| AdminBorrowings.OfferedRenewalSucceeds | app/admin/borrowings/page.tsx:368-377 | a renewal the row offers always goes through, raises the counter by one within the cap and marks the loan renewed |
| AdminBorrowings.ReturnedOffersNothing | app/admin/borrowings/page.tsx:368 | after a return the row offers neither return nor renewal |
| AdminBorrowings.CapReachedRefused | app/admin/borrowings/page.tsx:377 | at the cap the row offers no renewal and renewing changes nothing |
| AdminBorrowings.Page.constructor | app/admin/borrowings/page.tsx:107-111 | the loans, an empty search, "all", the dialog closed and no selection |
| AdminBorrowings.Page.HandleForceReturn | app/admin/borrowings/page.tsx:144-147 | remembers the loan and opens the dialog, nothing else |
| AdminBorrowings.Page.CancelReturn | app/admin/borrowings/page.tsx:427 | "Annuler" closes the dialog and keeps the selection, nothing else changes |
| AdminBorrowings.Page.ConfirmReturn | app/admin/borrowings/page.tsx:149-159 | with a truthy selection returns that loan today and closes and clears the dialog; otherwise nothing changes; the cap invariant is kept |
| AdminBorrowings.Page.HandleRenewal | app/admin/borrowings/page.tsx:161-175 | the list becomes its renewal, the cap invariant is kept, nothing else changes |
| MyBorrowings.StatusFilteredSpec | app/my-borrowings/page.tsx:98-100 | "all" keeps the list; any other value keeps exactly the loans with that status |
| MyBorrowings.DisplayedIsPermutation | app/my-borrowings/page.tsx:118 | the list shown is a permutation of the filtered loans, so the count printed is theirs |
| MyBorrowings.ComparatorIsTotalPreorder | app/my-borrowings/page.tsx:103-116 | every sort key gives a total preorder when `localeCompare` is one |
| MyBorrowings.DisplayedDateOrder | app/my-borrowings/page.tsx:105-108 | by due date the earliest comes first; by borrowing date the most recent |
| MyBorrowings.DisplayedTextOrder | app/my-borrowings/page.tsx:109-112 | by title or author the list is in `localeCompare` order |
| MyBorrowings.UnknownKeyKeepsOrder | app/my-borrowings/page.tsx:113-114 | an unknown key leaves the filtered order as it was |
| MyBorrowings.ReturnLoan | app/my-borrowings/page.tsx:155-163 | the loans with the id become returned with today's return date; every other loan unchanged |
| MyBorrowings.RenewLoan | app/my-borrowings/page.tsx:165-173 | the loans with the id are counted once more and due today + 30, status kept; every other loan unchanged |
| MyBorrowings.RenewedLoanDueInThirtyDays | app/my-borrowings/page.tsx:165-173 | right after a renewal the loan has exactly thirty days left |
| MyBorrowings.RenewHasNoCap | app/my-borrowings/page.tsx:165-173 | a loan renewed twice already goes to three |
| MyBorrowings.OfferedRenewalKeepsLimit | app/my-borrowings/page.tsx:381-388 | renewing a loan the row offers it for keeps every counter at most two |
| MyBorrowings.ReturnedOffersNothing | app/my-borrowings/page.tsx:379-400 | a returned loan offers no action |
| MyBorrowings.HandlersKeepReturnDateInvariant | app/my-borrowings/page.tsx:155-173 | both handlers keep "return date present exactly when returned" |
| MyBorrowings.ComputeStats | app/my-borrowings/page.tsx:183-188 | active + overdue + returned = total |
| MyBorrowings.NoteFor | app/my-borrowings/page.tsx:357-358 | the note is longer than two characters |
| MyBorrowings.NoteForWording | app/my-borrowings/page.tsx:357-358 | the note ends in " de retard)" exactly for a late loan, and "jour" takes its "s" exactly when more than one day is counted, in both wordings |
| MyBorrowings.NoteForLate | app/my-borrowings/page.tsx:357-358 | the character after the parenthesis is a digit exactly for a late loan |
| MyBorrowings.NoteForInjective | app/my-borrowings/page.tsx:357-358 | different day counts never give the same note |
| MyBorrowings.SoonNoteInjective | app/my-borrowings/page.tsx:357 | the " (dans N jour(s))" note determines N |
| MyBorrowings.LateNoteInjective | app/my-borrowings/page.tsx:358 | the " (N jour(s) de retard)" note determines N |
| MyBorrowings.DueNote | app/my-borrowings/page.tsx:355-358 | empty exactly for a returned loan, otherwise the note of the days left |
| MyBorrowings.Page.constructor | app/my-borrowings/page.tsx:20-24 | both lists are the loaded loans, "all", sorted by due date |
| MyBorrowings.Page.ApplyFilterAndSort | app/my-borrowings/page.tsx:94-119 | the shown list is the sorted filtered list; with "all" the in-place sort reorders the loans too |
| MyBorrowings.Page.HandleReturn | app/my-borrowings/page.tsx:155-163 | the loans become their return today; nothing else changes |
| MyBorrowings.Page.HandleRenew | app/my-borrowings/page.tsx:165-173 | the loans become their renewal from today; nothing else changes |
| Dashboard.CurrentLoansSpec | app/dashboard/page.tsx:255-270 | the view holds exactly the loans not returned, distributes over concatenation and keeps a list of current loans whole |
| Dashboard.ReturnLoan | app/dashboard/page.tsx:138-142 | only the status of the loans with the id changes, to returned; no return date |
| Dashboard.RenewLoan | app/dashboard/page.tsx:144-152 | the loans with the id are counted once more and due today + 30; every other loan unchanged |
| Dashboard.ReturnLeavesView | app/dashboard/page.tsx:138-142 | a returned loan leaves the view and every other current loan stays |
| Dashboard.RenewKeepsView | app/dashboard/page.tsx:144-152 | a renewal keeps the number of current loans |
| Dashboard.OfferedRenewalKeepsLimit | app/dashboard/page.tsx:295 | renewing a loan the card offers it for keeps every counter at most two |
| Dashboard.RenewedLoanDueInThirtyDays | app/dashboard/page.tsx:144-152 | right after a renewal the label counts thirty days |
| Dashboard.DueLabel | app/dashboard/page.tsx:289-290 | the label is at least two characters long |
| Dashboard.DueLabelWording | app/dashboard/page.tsx:289-290 | "jour" takes its "s" exactly when more than one day is counted; "en retard de" opens the label exactly for a late loan |
| Dashboard.DueLabelInjective | app/dashboard/page.tsx:289-290 | different day counts never give the same label |
| Dashboard.DueLabelSoon | app/dashboard/page.tsx:289-290 | the third character is the 'd' of "dans" exactly for a loan not yet late |
| Dashboard.SoonLabelInjective | app/dashboard/page.tsx:289 | the " (dans N jour(s))" label determines N |
| Dashboard.LateLabelInjective | app/dashboard/page.tsx:290 | the " (en retard de N jour(s))" label determines N |
| Dashboard.Page.constructor | app/dashboard/page.tsx:98 | the loaded loans |
| Dashboard.Page.HandleReturn | app/dashboard/page.tsx:138-142 | the loans become their return |
| Dashboard.Page.HandleRenew | app/dashboard/page.tsx:144-152 | the loans become their renewal from today |
| Notifications.MarkAsRead | app/notifications/page.tsx:145-149 | the entries with the id become read; length and every other field and entry unchanged |
| Notifications.MarkAllAsRead | app/notifications/page.tsx:151-153 | every entry becomes read, nothing else changes |
| Notifications.MarkAllAsReadSpec | app/notifications/page.tsx:151-153 | afterwards both counters are 0, and marking again changes nothing |
| Notifications.MarkAsReadUnreadCount | app/notifications/page.tsx:145-149 | afterwards the unread entries are those unread with another id, so the count never goes up |
| Notifications.DeleteSpec | app/notifications/page.tsx:155-157 | removes exactly the entries with the id, keeps the others with their multiplicity and order |
| Notifications.ClearAllReadSpec | app/notifications/page.tsx:159-161 | keeps exactly the unread entries; the unread count stays, and clearing again changes nothing |
| Notifications.CountsOrdered | app/notifications/page.tsx:174-175 | pending actions <= unread <= total |
| Notifications.FilteredSpec | app/notifications/page.tsx:163-172 | an entry is shown exactly when the read-state filter and the type filter accept it; both on "all" show everything |
| Notifications.ActionFilterCoversCounter | app/notifications/page.tsx:166-175 | the "action-required" view holds at least as many entries as the pending-action counter |
| Notifications.ActionFilterShowsReadEntries | app/notifications/page.tsx:166-175 | a read entry that needs action is listed by that view but not counted |
| Notifications.AgeOf | app/notifications/page.tsx:177-190 | under an hour is one bucket; then whole hours from 1 to 23; then whole days; each bucket's bounds in milliseconds |
| Notifications.RenderShape | app/notifications/page.tsx:182-189 | the eighth character is a digit exactly when hours or days are shown |
| Notifications.RenderInjective | app/notifications/page.tsx:182-189 | different buckets never give the same text |
| Notifications.RenderPlural | app/notifications/page.tsx:185-188 | the text ends in "s" exactly when more than one hour or day is counted |
| Notifications.Page.constructor | app/notifications/page.tsx:106-108 | the loaded entries with both filters on "all" |
| Notifications.Page.MarkOneAsRead | app/notifications/page.tsx:145-149 | the list becomes its mark-as-read; the unread count does not go up |
| Notifications.Page.MarkEveryAsRead | app/notifications/page.tsx:151-153 | the list becomes its mark-all; both counters are 0 |
| Notifications.Page.DeleteNotification | app/notifications/page.tsx:155-157 | the list becomes its delete |
| Notifications.Page.ClearRead | app/notifications/page.tsx:159-161 | the list becomes its unread entries; every entry left is unread |
| AdminUsers.FilteredUsersSpec | app/admin/users/page.tsx:101-110 | a user is listed exactly when the search and the three dropdowns accept them, with their multiplicity; no search and "all" show everyone |
| AdminUsers.DepartmentsSpec | app/admin/users/page.tsx:99 | each department of some user appears once, nothing else, in order of first appearance |
| AdminUsers.ChangeStatus | app/admin/users/page.tsx:157-161 | the users with the id take the new status; every other user and field unchanged |
| AdminUsers.StatusAction | app/admin/users/page.tsx:341-357 | a pending user has no button; otherwise the button changes the status to the other of active and suspended |
| AdminUsers.StatusActionInverse | app/admin/users/page.tsx:341-357 | pressing the button twice restores the status |
| AdminUsers.SuspendReactivateRoundTrip | app/admin/users/page.tsx:157-161 | suspending active users and reactivating them gives the list back |
| AdminUsers.DeleteSpec | app/admin/users/page.tsx:149-155 | removes exactly the users with the id, keeps the others in order and multiplicity, shortens the list by the number removed |
| AdminUsers.ComputeStats | app/admin/users/page.tsx:163-170 | active + suspended + pending = total, and students + admins = total |
| AdminUsers.ChangeStatusKeepsRoles | app/admin/users/page.tsx:157-170 | a status change leaves the student count as it was |
| AdminUsers.Page.constructor | app/admin/users/page.tsx:91-97 | the users, an empty search, every dropdown on "all", the dialog closed and no selection |
| AdminUsers.Page.HandleDeleteUser | app/admin/users/page.tsx:144-147 | remembers the user and opens the dialog, nothing else |
| AdminUsers.Page.CancelDelete | app/admin/users/page.tsx:391 | "Annuler" closes the dialog and keeps the selection, nothing else changes |
| AdminUsers.Page.ConfirmDelete | app/admin/users/page.tsx:149-155 | with a truthy selection deletes those users and closes and clears the dialog; otherwise nothing changes |
| AdminUsers.Page.HandleStatusChange | app/admin/users/page.tsx:157-161 | the users become their status change; total and student count unchanged |
| AdminBooks.FilteredBooksSpec | app/admin/books/page.tsx:88-96 | a book is listed exactly when title or author contains the term ignoring case, or the ISBN as typed, and both dropdowns accept it |
| AdminBooks.CategoriesSpec | app/admin/books/page.tsx:86 | each category appears once, nothing else, in order of first appearance |
| AdminBooks.FieldOf | app/admin/books/page.tsx:99-100 | a column's value is a string exactly for the text columns |
| AdminBooks.DescendingSwapsArguments | app/admin/books/page.tsx:102-110 | descending compares the arguments the other way round; on a numeric column it is the negation of ascending, and on every column it has the opposite sign when `localeCompare` flips its sign with its arguments |
| AdminBooks.BookCompareFlipsSign | app/admin/books/page.tsx:102-110 | every column and direction flips its sign with its arguments when `localeCompare` does |
| AdminBooks.BookCompareIsTotalPreorder | app/admin/books/page.tsx:98-113 | every column and direction gives a total preorder when `localeCompare` is one, and a consistent comparator when `localeCompare` is one |
| AdminBooks.SortedBooksSpec | app/admin/books/page.tsx:98-113 | the sorted copy is a permutation of the filtered books, in the column's order and direction |
| AdminBooks.SortAfterClick | app/admin/books/page.tsx:115-122 | the clicked column becomes the sort column, and the order is ascending exactly on a new column or after descending |
| AdminBooks.DescendingReversesAscending | app/admin/books/page.tsx:98-122 | when the column tells every two books apart, the descending table is exactly the ascending one reversed |
| AdminBooks.TiesKeepOrderBothWays | app/admin/books/page.tsx:98-122 | two books with the same value in the column are listed in their input order in both directions, so for two different books the descending table is not the ascending one reversed |
| AdminBooks.ClickTwice | app/admin/books/page.tsx:115-122 | two clicks on the current column restore the state; two on a new one end descending |
| AdminBooks.DeleteSpec | app/admin/books/page.tsx:144-150 | removes exactly the books with the id, keeps the others in order, shortens the list by the number removed |
| AdminBooks.SumOfAppend | app/admin/books/page.tsx:190 | a sum over two lists is the sum of the sums |
| AdminBooks.SumOfSplit | app/admin/books/page.tsx:190 | a sum splits over the books that pass a filter and those that do not |
| AdminBooks.DeleteTakesCopiesOff | app/admin/books/page.tsx:144-150 | deleting takes exactly the deleted books' copies off the total |
| AdminBooks.BorrowedAtMostTotal | app/admin/books/page.tsx:190-205 | when no book lends more copies than it has, the borrowed sum is at most the total sum |
| AdminBooks.LowStockCount | app/admin/books/page.tsx:221 | low-stock plus available books = all books |
| AdminBooks.Page.constructor | app/admin/books/page.tsx:76-84 | the books, an empty search, "all" twice, sorted by title ascending, the dialog closed and no selection |
| AdminBooks.Page.HandleSort | app/admin/books/page.tsx:115-122 | column and order become those after the click, nothing else changes |
| AdminBooks.Page.HandleDeleteBook | app/admin/books/page.tsx:139-142 | remembers the book and opens the dialog, nothing else |
| AdminBooks.Page.CancelDelete | app/admin/books/page.tsx:389 | "Annuler" closes the dialog and keeps the selection, nothing else changes |
| AdminBooks.Page.ConfirmDelete | app/admin/books/page.tsx:144-150 | with a truthy selection deletes those books and closes and clears the dialog; otherwise nothing changes |
| Catalog.FilteredCatalogueSpec | app/books/page.tsx:105-117 | a book passes exactly when the term is empty or title or author contains it ignoring case, and the genre is empty or equal; with neither the catalogue passes whole |
| Catalog.FilterStepsCombine | app/books/page.tsx:108-117 | the two filter steps together are one filter by both conditions |
| Catalog.EmptySearchSkipsNothing | app/books/page.tsx:108 | skipping the search for an empty term agrees with searching for it |
| Catalog.DisplayedIsPermutation | app/books/page.tsx:135 | the list shown is a permutation of the books that pass, so the count printed is theirs |
| Catalog.ComparatorIsTotalPreorder | app/books/page.tsx:120-133 | every sort key gives a total preorder when `localeCompare` is one |
| Catalog.DisplayedNumberOrder | app/books/page.tsx:126-129 | by year or availability the larger number comes first; by availability every borrowable book precedes every other |
| Catalog.DisplayedTextOrder | app/books/page.tsx:122-125 | by title or author the list is in `localeCompare` order |
| Catalog.UnknownKeyKeepsOrder | app/books/page.tsx:130-131 | an unknown key leaves the filtered order as it was |
| Catalog.GenresSpec | app/books/page.tsx:100 | each genre appears once, nothing else, in order of first appearance; a listed genre always shows a book |
| Catalog.Page.constructor | app/books/page.tsx:98-100 | the catalogue shown unfiltered, its genres, sorted by title |
| Catalog.Page.ApplyFilters | app/books/page.tsx:105-136 | the shown list is the sorted filtered list; with no search and no genre the in-place sort reorders the catalogue too |
| Help.FilteredFaqsSpec | app/help/page.tsx:90-96 | an entry is listed exactly when question or answer contains the term ignoring case and the category matches or is "all"; no search and "all" list everything |
| Help.CategoriesSpec | app/help/page.tsx:88 | each category appears once, nothing else, in order of first appearance |
| Help.Toggle | app/help/page.tsx:191 | the clicked entry is open afterwards exactly when it was not, and nothing else can be open |
| Help.AtMostOneExpanded | app/help/page.tsx:207 | two entries with different ids are never open together |
| Help.ToggleTwice | app/help/page.tsx:191 | two clicks reopen an entry that was open and otherwise close everything |
| Help.EditTicket | app/help/page.tsx:423-464 | each input replaces its field only |
| Help.SubmitEnabledAfterTyping | app/help/page.tsx:482 | typing a subject and a description enables the button; the reset form disables it |
| Help.Page.constructor | app/help/page.tsx:75-86 | no search, "all", nothing open, the default ticket, not submitted |
| Help.Page.ToggleFaq | app/help/page.tsx:191 | the open entry becomes the toggle's result, nothing else changes |
| Help.Page.EditField | app/help/page.tsx:423-464 | the ticket becomes its edit, nothing else changes |
| Help.Page.SetPriority | app/help/page.tsx:449 | only the priority changes |
| Help.Page.HandleTicketSubmit | app/help/page.tsx:98-106 | marked submitted, the ticket reset to subject "", description "", "general", medium, and the button disabled |
| Settings.ToggleNotification | app/settings/page.tsx:388 | the switch flips its own setting and no other |
| Settings.NotificationsExtensional | app/settings/page.tsx:51-58 | settings that agree on every switch are equal |
| Settings.ToggleNotificationTwice | app/settings/page.tsx:388 | two flips restore the settings |
| Settings.TogglePrivacy | app/settings/page.tsx:438 | the switch flips its own setting and no other |
| Settings.PrivacyExtensional | app/settings/page.tsx:60-65 | settings that agree on every switch are equal |
| Settings.TogglePrivacyTwice | app/settings/page.tsx:438 | two flips restore the settings |
| Settings.SaveMessageInjective | app/settings/page.tsx:91 | the message names its section: different sections give different messages |
| Settings.PasswordChange | app/settings/page.tsx:95-104 | on a mismatch the mismatch message and the form kept; on a match (empty included) the success message and the form emptied |
| Settings.PasswordChangeAgain | app/settings/page.tsx:95-104 | a mismatch stays reported until an edit; after a success another click succeeds |
| Settings.EditPassword | app/settings/page.tsx:288-326 | each input replaces its field only |
| Settings.MatchingEntriesSucceed | app/settings/page.tsx:307-326 | typing the same new password twice makes the change succeed |
| Settings.Page.constructor | app/settings/page.tsx:48-88 | the default switches and appearance, an empty form and no message |
| Settings.Page.FlipNotification | app/settings/page.tsx:388 | the notification switches become their toggle, nothing else changes |
| Settings.Page.FlipPrivacy | app/settings/page.tsx:438 | the privacy switches become their toggle, nothing else changes |
| Settings.Page.SetTheme | app/settings/page.tsx:485 | only the theme changes |
| Settings.Page.SetLanguage | app/settings/page.tsx:506 | only the language changes |
| Settings.Page.ToggleCompactMode | app/settings/page.tsx:521 | only compact mode flips |
| Settings.Page.ToggleShowAvatars | app/settings/page.tsx:537 | only the avatar setting flips |
| Settings.Page.HandleSave | app/settings/page.tsx:90-93 | the message becomes "Paramètres <section> sauvegardés avec succès !", nothing else changes |
| Settings.Page.EditPasswordField | app/settings/page.tsx:288-326 | the form becomes its edit, nothing else changes |
| Settings.Page.HandlePasswordChange | app/settings/page.tsx:95-104 | form and message become the password change's result; switches and appearance unchanged |
| Profile.InputChange | app/profile/page.tsx:52-57 | the named field takes the value, every other field is kept |
| Profile.SubmitUser | app/profile/page.tsx:62-67 | name and e-mail come from the form, every other user field is kept |
| Profile.ClearPasswords | app/profile/page.tsx:69-74 | name and e-mail kept, the three passwords emptied |
| Profile.SubmitThenCancel | app/profile/page.tsx:59-90 | after a submission the form is what cancelling would load; submitting the loaded form changes nothing |
| Profile.CardInitials | app/profile/page.tsx:153 | the initials are the characters that begin a space-separated word of the name |
| Profile.Page.constructor | app/profile/page.tsx:28-50 | the user loaded, the form holding the user's name and e-mail, not editing |
| Profile.Page.HandleInputChange | app/profile/page.tsx:52-57 | the form becomes its edit; user and edit mode unchanged |
| Profile.Page.HandleEdit | app/profile/page.tsx:137 | "Modifier" starts edit mode; user and form unchanged |
| Profile.Page.HandleSubmit | app/profile/page.tsx:59-77 | with a user: user updated, edit mode off, passwords emptied, the form again that of the user; without: nothing changes |
| Profile.Page.HandleCancel | app/profile/page.tsx:79-90 | with a user the form goes back to the user's values; edit mode ends in every case |

## Left out

- Rendering (JSX, styling, icons) and every `loading` flag are left out: they are presentation only.
- The timers that clear a message or the "ticket sent" flag (settings, help) are left out. They are asynchronous; the model keeps the state just before they fire.
- The `console.log` submits of the registration and forgotten-password pages, the administrator overview page (hard-coded figures, floating-point percentage bars), the navigation bar, the layout files, the footer, the hero sections and the home page are not part of this model. They are static markup or framework glue.
- The mock seed arrays are not modelled; every constructor takes the initial data as a parameter.
- The current time is never read: handlers take `nowMs` as a parameter.
- Calendar parsing and formatting are not modelled. This covers `new Date(...)`, time zones, daylight saving and `toLocaleDateString`. A date is a UTC day number.
- The settings page's profile tab and tab switching are simple field assignments and are not modelled. These are `profileForm`, `activeTab` and the show-password switches.
- The search boxes and dropdown setters are plain assignments; the model reads their fields and does not give each setter a method.
- The FAQ and support-ticket submission send nothing anywhere; only the state change is modelled.
- The dashboard's static recommendations and reading statistics are left out. So are the notifications' `relatedEntity` and the notification type filter's list of options.
- Text.Lower: lowers ASCII letters only; JavaScript's `toLowerCase` also lowers the rest of Unicode.
- Query.SortBy: the comparator of the title and author sorts is the `localeCompare` parameter, whose collation is not modelled. Orders are proved only when that parameter is a total preorder, and the exact reversal of the book table only when it is consistent. The sort is a stable insertion sort. For a consistent comparator a sorted permutation that keeps ties in input order is unique, so every stable sort agrees with it; the model proves uniqueness only when nothing ties (`Query.SortedUnique`) and does not model other sort algorithms.
- AdminUsers.ChangeStatus: requires a status other than pending, because the handler's parameter type admits only active and suspended.
- AdminBorrowings.RenewLoan: the invariant proof (RenewKeepsReturnDateInvariant) covers only the loans the screen offers renewal for. The handler itself does not look at the status; RenewIgnoresStatus shows what it does otherwise.
- AdminBorrowings.Page.ConfirmReturn: `daysOverdue` and `notes` are carried along unchanged, as the handler leaves them.
- Dashboard.DueLabel: its own contract says only the length; the wording, the plural and the injectivity are the lemmas DueLabelWording and DueLabelInjective.
- MyBorrowings.NoteFor: its own contract says only the length; the wording and the plural are the lemma NoteForWording, the late/not-late distinction NoteForLate, and the injectivity NoteForInjective.

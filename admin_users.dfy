/** The administrator's user screen: search and three dropdown filters, the
    department list behind one of them, suspension and reactivation, deletion
    through a confirmation dialog, and the summary counts. */
module AdminUsers {
  import opened Wrappers
  import opened Text
  import opened Query
  import opened Accounts

  datatype AccountStatus = Active | Suspended | Pending {
    function Name(): string {
      match this
      case Active => "active"
      case Suspended => "suspended"
      case Pending => "pending"
    }
  }

  datatype User = User(
    id: int,
    name: string,
    email: string,
    studentId: string,
    role: Role,
    status: AccountStatus,
    registrationDate: string,
    lastLogin: string,
    borrowedBooks: int,
    overdueBooks: int,
    totalBorrowings: int,
    department: string)

  // ---------------------------------------------------------------------------
  // The filtered view and the department list

  /** The search box: name, e-mail or student number, ignoring case. */
  predicate MatchesSearch(u: User, term: string) {
    || ContainsIgnoringCase(u.name, term)
    || ContainsIgnoringCase(u.email, term)
    || ContainsIgnoringCase(u.studentId, term)
  }

  /** The role, status and department dropdowns, each with "all" letting everything through. */
  predicate MatchesDropdowns(u: User, selectedRole: string, selectedStatus: string, selectedDepartment: string) {
    && (selectedRole == "all" || u.role.Name() == selectedRole)
    && (selectedStatus == "all" || u.status.Name() == selectedStatus)
    && (selectedDepartment == "all" || u.department == selectedDepartment)
  }

  function Matching(term: string, selectedRole: string, selectedStatus: string, selectedDepartment: string): User -> bool {
    (u: User) => MatchesSearch(u, term) && MatchesDropdowns(u, selectedRole, selectedStatus, selectedDepartment)
  }

  function FilteredUsers(us: seq<User>, term: string, selectedRole: string, selectedStatus: string,
                         selectedDepartment: string): seq<User> {
    Filter(us, Matching(term, selectedRole, selectedStatus, selectedDepartment))
  }

  /** A user is listed exactly when the search and all three dropdowns accept
      them, as many times as in the list; with no search and every dropdown on
      "all" the whole list is shown. */
  lemma FilteredUsersSpec(us: seq<User>, term: string, selectedRole: string, selectedStatus: string,
                          selectedDepartment: string, u: User)
    ensures u in FilteredUsers(us, term, selectedRole, selectedStatus, selectedDepartment) <==>
            && u in us
            && (ContainsIgnoringCase(u.name, term) || ContainsIgnoringCase(u.email, term)
                || ContainsIgnoringCase(u.studentId, term))
            && (selectedRole == "all" || u.role.Name() == selectedRole)
            && (selectedStatus == "all" || u.status.Name() == selectedStatus)
            && (selectedDepartment == "all" || u.department == selectedDepartment)
    ensures multiset(FilteredUsers(us, term, selectedRole, selectedStatus, selectedDepartment))[u] ==
            if Matching(term, selectedRole, selectedStatus, selectedDepartment)(u) then multiset(us)[u] else 0
    ensures FilteredUsers(us, "", "all", "all", "all") == us
  {
    var p := Matching(term, selectedRole, selectedStatus, selectedDepartment);
    FilterMembership(us, p, u);
    FilterMultiplicity(us, p, u);
    forall k | 0 <= k < |us| ensures Matching("", "all", "all", "all")(us[k]) {
      EmptyIsContainedIgnoringCase(us[k].name);
    }
    FilterKeepsAll(us, Matching("", "all", "all", "all"));
  }

  function DepartmentOf(u: User): string { u.department }

  /** `Array.from(new Set(users.map(user => user.department)))`. */
  function Departments(us: seq<User>): seq<string> {
    Distinct(Column(us, DepartmentOf))
  }

  /** Every department of some user appears once, nothing else appears, and
      the order is that of first appearance in the list. */
  lemma DepartmentsSpec(us: seq<User>, i: nat, j: nat)
    ensures NoDuplicates(Departments(us))
    ensures forall k :: 0 <= k < |us| ==> us[k].department in Departments(us)
    ensures forall k :: 0 <= k < |Departments(us)| ==>
              exists m :: 0 <= m < |us| && us[m].department == Departments(us)[k]
    ensures i < j < |Departments(us)| ==>
              FirstIndex(Column(us, DepartmentOf), Departments(us)[i]) < FirstIndex(Column(us, DepartmentOf), Departments(us)[j])
  {
    DistinctColumnSpec(us, DepartmentOf, i, j);
  }

  // ---------------------------------------------------------------------------
  // Status changes and deletion

  /** `handleStatusChange`: the users with that id take the new status, which
      is active or suspended; nothing else changes. */
  function ChangeStatus(us: seq<User>, id: int, newStatus: AccountStatus): (r: seq<User>)
    requires newStatus != Pending
    ensures |r| == |us|
    ensures forall i :: 0 <= i < |us| && us[i].id != id ==> r[i] == us[i]
    ensures forall i :: 0 <= i < |us| && us[i].id == id ==> r[i] == us[i].(status := newStatus)
  {
    seq(|us|, i requires 0 <= i < |us| => if us[i].id == id then us[i].(status := newStatus) else us[i])
  }

  /** The status button of a row: suspend an active user, reactivate a
      suspended one, nothing for a pending one. */
  function StatusAction(u: User): (action: Option<AccountStatus>)
    ensures action.Some? ==> action.value != Pending && action.value != u.status
    ensures action.None? <==> u.status == Pending
  {
    match u.status
    case Active => Some(Suspended)
    case Suspended => Some(Active)
    case Pending => None
  }

  /** Pressing the button twice undoes it: the second press is the inverse action. */
  lemma StatusActionInverse(u: User)
    requires StatusAction(u).Some?
    ensures StatusAction(u.(status := StatusAction(u).value)) == Some(u.status)
  {
  }

  /** Suspending the active users with an id and reactivating them gives the list back. */
  lemma SuspendReactivateRoundTrip(us: seq<User>, id: int)
    requires forall i :: 0 <= i < |us| && us[i].id == id ==> us[i].status == Active
    ensures ChangeStatus(ChangeStatus(us, id, Suspended), id, Active) == us
  {
    var r := ChangeStatus(ChangeStatus(us, id, Suspended), id, Active);
    assert forall i :: 0 <= i < |us| ==> r[i] == us[i];
  }

  function IdIsNot(id: int): User -> bool {
    (u: User) => u.id != id
  }

  function IdIs(id: int): User -> bool {
    (u: User) => u.id == id
  }

  /** The delete in `confirmDelete`. */
  function Delete(us: seq<User>, id: int): seq<User> {
    Filter(us, IdIsNot(id))
  }

  /** Deleting removes exactly the users with that id, keeps the others in
      order and multiplicity, and shortens the list by the number removed. */
  lemma DeleteSpec(us: seq<User>, more: seq<User>, id: int, u: User)
    ensures u in Delete(us, id) <==> u in us && u.id != id
    ensures u.id != id ==> multiset(Delete(us, id))[u] == multiset(us)[u]
    ensures Delete(us + more, id) == Delete(us, id) + Delete(more, id)
    ensures |Delete(us, id)| + |Filter(us, IdIs(id))| == |us|
  {
    FilterMembership(us, IdIsNot(id), u);
    FilterMultiplicity(us, IdIsNot(id), u);
    FilterAppend(us, more, IdIsNot(id));
    FilterPartition2(us, IdIsNot(id), IdIs(id));
  }

  // ---------------------------------------------------------------------------
  // Statistics

  predicate IsActive(u: User) { u.status.Active? }
  predicate IsSuspended(u: User) { u.status.Suspended? }
  predicate IsPending(u: User) { u.status.Pending? }
  predicate IsStudent(u: User) { u.role.Student? }
  predicate IsAdmin(u: User) { u.role.Admin? }

  datatype Stats = Stats(totalUsers: nat, activeUsers: nat, suspendedUsers: nat, pendingUsers: nat,
                         totalStudents: nat, totalAdmins: nat)

  /** `stats`: the status counts and the role counts each add up to the total. */
  function ComputeStats(us: seq<User>): (st: Stats)
    ensures st.totalUsers == |us|
    ensures st.activeUsers + st.suspendedUsers + st.pendingUsers == st.totalUsers
    ensures st.totalStudents + st.totalAdmins == st.totalUsers
  {
    FilterPartition3(us, IsActive, IsSuspended, IsPending);
    FilterPartition2(us, IsStudent, IsAdmin);
    Stats(|us|, |Filter(us, IsActive)|, |Filter(us, IsSuspended)|, |Filter(us, IsPending)|,
          |Filter(us, IsStudent)|, |Filter(us, IsAdmin)|)
  }

  /** A status change moves users between the status counts but never changes a role count. */
  lemma {:induction false} ChangeStatusKeepsRoles(us: seq<User>, id: int, newStatus: AccountStatus)
    requires newStatus != Pending
    ensures ComputeStats(ChangeStatus(us, id, newStatus)).totalStudents == ComputeStats(us).totalStudents
  {
    if us != [] {
      ChangeStatusKeepsRoles(us[1..], id, newStatus);
      assert ChangeStatus(us, id, newStatus)[1..] == ChangeStatus(us[1..], id, newStatus);
    }
  }

  // ---------------------------------------------------------------------------
  // The page state

  class Page {
    var users: seq<User>
    var searchTerm: string
    var selectedRole: string
    var selectedStatus: string
    var selectedDepartment: string
    var showDeleteModal: bool
    var selectedUserId: Option<int>

    constructor (initial: seq<User>)
      ensures users == initial && searchTerm == ""
      ensures selectedRole == "all" && selectedStatus == "all" && selectedDepartment == "all"
      ensures !showDeleteModal && selectedUserId == None
    {
      users := initial;
      searchTerm := "";
      selectedRole := "all";
      selectedStatus := "all";
      selectedDepartment := "all";
      showDeleteModal := false;
      selectedUserId := None;
    }

    function Filtered(): seq<User>
      reads this
    {
      FilteredUsers(users, searchTerm, selectedRole, selectedStatus, selectedDepartment)
    }

    function DepartmentList(): seq<string>
      reads this
    {
      Departments(users)
    }

    function CurrentStats(): Stats
      reads this
    {
      ComputeStats(users)
    }

    /** The delete button only opens the confirmation dialog. */
    method HandleDeleteUser(id: int)
      modifies this
      ensures selectedUserId == Some(id) && showDeleteModal
      ensures users == old(users) && searchTerm == old(searchTerm)
      ensures selectedRole == old(selectedRole) && selectedStatus == old(selectedStatus)
      ensures selectedDepartment == old(selectedDepartment)
    {
      selectedUserId := Some(id);
      showDeleteModal := true;
    }

    /** "Annuler" in the confirmation: the dialog closes and the selection stays. */
    method CancelDelete()
      modifies this
      ensures !showDeleteModal && selectedUserId == old(selectedUserId)
      ensures users == old(users) && searchTerm == old(searchTerm)
      ensures selectedRole == old(selectedRole) && selectedStatus == old(selectedStatus)
      ensures selectedDepartment == old(selectedDepartment)
    {
      showDeleteModal := false;
    }

    /** With a (truthy) selection, delete those users and close the dialog;
        otherwise nothing happens. */
    method ConfirmDelete()
      modifies this
      ensures IsSelected(old(selectedUserId)) ==>
        && users == Delete(old(users), old(selectedUserId).value)
        && !showDeleteModal && selectedUserId == None
      ensures !IsSelected(old(selectedUserId)) ==>
        && users == old(users) && showDeleteModal == old(showDeleteModal)
        && selectedUserId == old(selectedUserId)
      ensures searchTerm == old(searchTerm) && selectedRole == old(selectedRole)
      ensures selectedStatus == old(selectedStatus) && selectedDepartment == old(selectedDepartment)
    {
      if IsSelected(selectedUserId) {
        users := Delete(users, selectedUserId.value);
        showDeleteModal := false;
        selectedUserId := None;
      }
    }

    method HandleStatusChange(userId: int, newStatus: AccountStatus)
      requires newStatus != Pending
      modifies this
      ensures users == ChangeStatus(old(users), userId, newStatus)
      ensures CurrentStats().totalUsers == old(CurrentStats().totalUsers)
      ensures CurrentStats().totalStudents == old(CurrentStats().totalStudents)
      ensures searchTerm == old(searchTerm) && selectedRole == old(selectedRole)
      ensures selectedStatus == old(selectedStatus) && selectedDepartment == old(selectedDepartment)
      ensures showDeleteModal == old(showDeleteModal) && selectedUserId == old(selectedUserId)
    {
      ChangeStatusKeepsRoles(users, userId, newStatus);
      users := ChangeStatus(users, userId, newStatus);
    }
  }
}

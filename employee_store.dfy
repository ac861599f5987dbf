/**
 * The in-memory employee store: the ordered employee sequence, the list's view
 * state (page, page size, view type, search query) and the set of selected ids,
 * with the operations the list page and the form modal call on it.
 */
module EmployeeStore {
  import opened JsText

  /** The fixed page size the store is created with. */
  const ItemsPerPage: nat := 12

  datatype Option<T> = None | Some(value: T)

  datatype ViewType = Table | Grid

  /** The eight fields the form collects and the store receives on add and update. */
  datatype EmployeeData = EmployeeData(
    firstName: string,
    lastName: string,
    dateOfEmployment: string,
    dateOfBirth: string,
    phone: string,
    email: string,
    department: string,
    position: string)

  /** A stored record: the form fields plus the id the store assigned and, after an edit, a timestamp. */
  datatype Employee = Employee(id: int, data: EmployeeData, updatedAt: Option<string>)

  /** The errors the store throws; `Message` is the text the caller shows. */
  datatype StoreError = DuplicateEmail | NotFound | EmailExists {
    function Message(): string {
      match this
      case DuplicateEmail => "Bu email adresi zaten kullan\U{131}mda"
      case NotFound => "Employee not found"
      case EmailExists => "Email already exists"
    }
  }

  /** Whether a mutation completed or threw. */
  datatype Outcome = Done | Failed(error: StoreError)

  /** What `getFilteredEmployees` returns: the records of the current page and the number of matches. */
  datatype Page = Page(items: seq<Employee>, total: nat)

  // ---------------------------------------------------------------------------
  // Selection

  /** The selection after toggling `id`: added when absent, removed when present. */
  function Toggled(selected: set<int>, id: int): (r: set<int>)
    ensures id in r <==> id !in selected
    ensures forall other :: other != id ==> (other in r <==> other in selected)
  {
    if id in selected then selected - {id} else selected + {id}
  }

  /** Toggling the same id twice gives back the original selection. */
  lemma ToggleTwice(selected: set<int>, id: int)
    ensures Toggled(Toggled(selected, id), id) == selected
  {
  }

  // ---------------------------------------------------------------------------
  // Array.prototype.filter over records

  /** `s.filter(keep)`: the records satisfying `keep`, in their original order. */
  function Where(s: seq<Employee>, keep: Employee -> bool): (r: seq<Employee>)
    ensures |r| <= |s|
    ensures forall e :: e in r <==> e in s && keep(e)
  {
    if s == [] then []
    else (if keep(s[0]) then [s[0]] else []) + Where(s[1..], keep)
  }

  /** Filtering a concatenation filters each part: the survivors keep their relative order. */
  lemma {:induction false} WhereAppend(a: seq<Employee>, b: seq<Employee>, keep: Employee -> bool)
    ensures Where(a + b, keep) == Where(a, keep) + Where(b, keep)
  {
    if a == [] {
      assert a + b == b;
    } else {
      var c, head := a + b, if keep(a[0]) then [a[0]] else [];
      assert c[0] == a[0] && c[1..] == a[1..] + b;
      assert Where(c, keep) == head + Where(c[1..], keep);
      assert Where(a, keep) == head + Where(a[1..], keep);
      WhereAppend(a[1..], b, keep);
    }
  }

  /** A filter that every record passes returns the sequence unchanged. */
  lemma {:induction false} WhereAll(s: seq<Employee>, keep: Employee -> bool)
    requires forall i :: 0 <= i < |s| ==> keep(s[i])
    ensures Where(s, keep) == s
  {
    if s != [] {
      WhereAll(s[1..], keep);
    }
  }

  function IdIsNot(id: int): Employee -> bool {
    (e: Employee) => e.id != id
  }

  function NotSelected(selected: set<int>): Employee -> bool {
    (e: Employee) => e.id !in selected
  }

  // ---------------------------------------------------------------------------
  // Lookups used by add and update

  /** `employees.some(emp => emp.email === email)`. */
  predicate EmailTaken(employees: seq<Employee>, email: string) {
    exists i | 0 <= i < |employees| :: employees[i].data.email == email
  }

  /** `employees.some(emp => emp.id !== id && emp.email === email)`. */
  predicate EmailTakenByOther(employees: seq<Employee>, id: int, email: string) {
    exists i | 0 <= i < |employees| :: employees[i].id != id && employees[i].data.email == email
  }

  /** `employees.findIndex(emp => emp.id === id)`: the first position holding `id`, or -1. */
  function IndexOfId(employees: seq<Employee>, id: int): (r: int)
    ensures -1 <= r < |employees|
    ensures r == -1 <==> forall j :: 0 <= j < |employees| ==> employees[j].id != id
    ensures 0 <= r ==> employees[r].id == id && forall j :: 0 <= j < r ==> employees[j].id != id
  {
    if employees == [] then -1
    else if employees[0].id == id then 0
    else
      var k := IndexOfId(employees[1..], id);
      if k == -1 then -1 else k + 1
  }

  /**
   * An email in use by another id is in use; and an email in use but not by another id is
   * held only by records with `id` itself, so an edit that keeps its own email is accepted.
   */
  lemma EmailTakenCases(employees: seq<Employee>, id: int, email: string)
    ensures EmailTakenByOther(employees, id, email) ==> EmailTaken(employees, email)
    ensures EmailTaken(employees, email) && !EmailTakenByOther(employees, id, email) ==>
      forall i :: 0 <= i < |employees| && employees[i].data.email == email ==> employees[i].id == id
  {
  }

  // ---------------------------------------------------------------------------
  // Search and pagination

  /** The record matches the lower-cased query on first name, last name or "first last". */
  predicate MatchesQuery(e: Employee, lowered: string) {
    || Includes(Lower(e.data.firstName), lowered)
    || Includes(Lower(e.data.lastName), lowered)
    || Includes(Lower(e.data.firstName + " " + e.data.lastName), lowered)
  }

  function Matching(lowered: string): Employee -> bool {
    (e: Employee) => MatchesQuery(e, lowered)
  }

  /** The full-name test subsumes the other two: a match on either name is a match on "first last". */
  lemma MatchesFullName(e: Employee, lowered: string)
    ensures MatchesQuery(e, lowered) <==> Includes(Lower(e.data.firstName + " " + e.data.lastName), lowered)
  {
    var first, last := e.data.firstName, e.data.lastName;
    var lf, ll := Lower(first), Lower(last);
    var full := Lower(first + " " + last);
    assert full == lf + (Lower(" ") + ll) by {
      assert first + " " + last == first + (" " + last);
      LowerAppend(first, " " + last);
      LowerAppend(" ", last);
    }
    if Includes(lf, lowered) {
      IncludesInFront(lf, Lower(" ") + ll, lowered);
    }
    if Includes(ll, lowered) {
      IncludesBehind(lf + Lower(" "), ll, lowered);
      assert lf + Lower(" ") + ll == full;
    }
  }

  /** The search filter: everything for the empty query, otherwise the matching records. */
  function Filtered(employees: seq<Employee>, query: string): (r: seq<Employee>)
    ensures |r| <= |employees|
    ensures forall e :: e in r <==> e in employees && MatchesQuery(e, Lower(query))
  {
    if query == "" then
      EmptyQueryMatchesAll(employees);
      employees
    else Where(employees, Matching(Lower(query)))
  }

  /** `getFilteredEmployees`: the page `[(page-1)*size, (page-1)*size + size)` of the filtered records. */
  function FilteredPage(employees: seq<Employee>, query: string, page: int, size: nat): (r: Page)
    ensures |r.items| <= size && r.total <= |employees|
    ensures forall e :: e in r.items ==> e in employees && MatchesQuery(e, Lower(query))
  {
    var filtered := Filtered(employees, query);
    var start := (page - 1) * size;
    SliceWidth(filtered, start, size);
    Page(Slice(filtered, start, start + size), |filtered|)
  }

  /** The empty-query shortcut changes nothing: every record contains the empty string. */
  lemma EmptyQueryMatchesAll(employees: seq<Employee>)
    ensures Where(employees, Matching(Lower(""))) == employees
  {
    forall i | 0 <= i < |employees|
      ensures Matching(Lower(""))(employees[i])
    {
      IncludesEmpty(Lower(employees[i].data.firstName));
    }
    WhereAll(employees, Matching(Lower("")));
  }

  /** Every returned record matches the query, and `total` counts exactly the matching records. */
  lemma FilteredPageMatches(employees: seq<Employee>, query: string, page: int, size: nat)
    ensures var p := FilteredPage(employees, query, page, size);
      && (forall e :: e in p.items ==> e in employees && MatchesQuery(e, Lower(query)))
      && p.total == |Where(employees, Matching(Lower(query)))|
      && (query == "" ==> p.total == |employees|)
  {
    if query == "" {
      EmptyQueryMatchesAll(employees);
    }
    var filtered := Filtered(employees, query);
    var p := FilteredPage(employees, query, page, size);
    assert filtered == Where(employees, Matching(Lower(query)));
    forall e | e in p.items
      ensures e in employees && MatchesQuery(e, Lower(query))
    {
      assert e in filtered;
    }
  }

  /** From page 1 on, the items are the contiguous window of the filtered records, clipped to their end. */
  lemma {:induction false} FilteredPageWindow(employees: seq<Employee>, query: string, page: int, size: nat)
    requires page >= 1
    ensures var filtered := Filtered(employees, query);
      var start := (page - 1) * size;
      var p := FilteredPage(employees, query, page, size);
      && |p.items| == (if start < |filtered| then Min(size, |filtered| - start) else 0)
      && |p.items| <= size
      && (forall k :: 0 <= k < |p.items| ==> p.items[k] == filtered[start + k])
  {
    var start := (page - 1) * size;
    assert 0 <= start by {
      MulNonNegative(page - 1, size);
    }
  }

  function Min(a: int, b: int): int {
    if a <= b then a else b
  }

  lemma MulNonNegative(a: int, b: int)
    requires 0 <= a && 0 <= b
    ensures 0 <= a * b
  {
  }

  // ---------------------------------------------------------------------------
  // The store

  class Store {
    var employees: seq<Employee>
    var currentPage: int
    const itemsPerPage: nat := ItemsPerPage
    var viewType: ViewType
    var searchQuery: string
    var selectedEmployees: set<int>

    /** The store as created, over the given initial records. */
    constructor (seed: seq<Employee>)
      ensures employees == seed && currentPage == 1
      ensures viewType == Table && searchQuery == "" && selectedEmployees == {}
    {
      employees := seed;
      currentPage := 1;
      viewType := Table;
      searchQuery := "";
      selectedEmployees := {};
    }

    method SetViewType(t: ViewType)
      modifies this`viewType
      ensures viewType == t
    {
      viewType := t;
    }

    /** No bounds check here: callers check the page before setting it. */
    method SetCurrentPage(page: int)
      modifies this`currentPage
      ensures currentPage == page
    {
      currentPage := page;
    }

    method SetSearchQuery(query: string)
      modifies this`searchQuery
      ensures searchQuery == query
    {
      searchQuery := query;
    }

    method ToggleEmployeeSelection(id: int)
      modifies this`selectedEmployees
      ensures selectedEmployees == Toggled(old(selectedEmployees), id)
    {
      var selected := selectedEmployees;
      if id in selected {
        selected := selected - {id};
      } else {
        selected := selected + {id};
      }
      selectedEmployees := selected;
    }

    /**
     * Rejects an email already in use; otherwise appends the record with id
     * `length + 1`, which may repeat an id after deletions.
     */
    method AddEmployee(data: EmployeeData) returns (outcome: Outcome)
      modifies this`employees
      ensures outcome.Failed? <==> EmailTaken(old(employees), data.email)
      ensures outcome.Failed? ==> outcome.error == DuplicateEmail && employees == old(employees)
      ensures outcome.Done? ==> employees == old(employees) + [Employee(|old(employees)| + 1, data, None)]
      ensures EmailsUnique(old(employees)) ==> EmailsUnique(employees)
    {
      if EmailTaken(employees, data.email) {
        return Failed(DuplicateEmail);
      }
      if EmailsUnique(employees) {
        AddKeepsEmailsUnique(employees, data);
      }
      employees := employees + [Employee(|employees| + 1, data, None)];
      outcome := Done;
    }

    /**
     * Fails when no record has `id`, or when a record with another id already has
     * the new email; otherwise overwrites the fields of the first record with `id`
     * and stamps it with `now`.
     */
    method UpdateEmployee(id: int, data: EmployeeData, now: string) returns (outcome: Outcome)
      modifies this`employees
      ensures outcome == Failed(NotFound) <==> IndexOfId(old(employees), id) == -1
      ensures outcome == Failed(EmailExists) <==>
        IndexOfId(old(employees), id) != -1 && EmailTakenByOther(old(employees), id, data.email)
      ensures outcome.Failed? ==> outcome.error != DuplicateEmail && employees == old(employees)
      ensures outcome.Done? ==>
        var i := IndexOfId(old(employees), id);
        0 <= i && employees == old(employees)[i := old(employees)[i].(data := data, updatedAt := Some(now))]
      ensures EmailsUnique(old(employees)) && IdsUnique(old(employees)) ==> EmailsUnique(employees)
    {
      var copy := employees;
      var index := IndexOfId(copy, id);
      if index == -1 {
        return Failed(NotFound);
      }
      if EmailTakenByOther(copy, id, data.email) {
        return Failed(EmailExists);
      }
      if EmailsUnique(copy) && IdsUnique(copy) {
        UpdateKeepsEmailsUnique(copy, id, data, now);
      }
      copy := copy[index := copy[index].(data := data, updatedAt := Some(now))];
      employees := copy;
      outcome := Done;
    }

    method DeleteEmployee(id: int)
      modifies this`employees, this`selectedEmployees
      ensures employees == Where(old(employees), IdIsNot(id))
      ensures selectedEmployees == old(selectedEmployees) - {id}
      ensures EmailsUnique(old(employees)) ==> EmailsUnique(employees)
    {
      if EmailsUnique(employees) {
        WhereKeepsEmailsUnique(employees, IdIsNot(id));
      }
      employees := Where(employees, IdIsNot(id));
      selectedEmployees := selectedEmployees - {id};
    }

    method DeleteSelectedEmployees()
      modifies this`employees, this`selectedEmployees
      ensures employees == Where(old(employees), NotSelected(old(selectedEmployees)))
      ensures selectedEmployees == {}
      ensures EmailsUnique(old(employees)) ==> EmailsUnique(employees)
    {
      if EmailsUnique(employees) {
        WhereKeepsEmailsUnique(employees, NotSelected(selectedEmployees));
      }
      employees := Where(employees, NotSelected(selectedEmployees));
      selectedEmployees := {};
    }

    /** `getFilteredEmployees` on the current state. */
    function GetFilteredEmployees(): (r: Page)
      reads this
      ensures |r.items| <= itemsPerPage && r.total <= |employees|
      ensures forall e :: e in r.items ==> e in employees && MatchesQuery(e, Lower(searchQuery))
    {
      FilteredPage(employees, searchQuery, currentPage, itemsPerPage)
    }
  }

  // ---------------------------------------------------------------------------
  // Properties of the mutations

  /** Deleting an id no record has leaves the records as they were. */
  lemma {:induction false} DeleteAbsentIsNoop(employees: seq<Employee>, id: int)
    requires forall i :: 0 <= i < |employees| ==> employees[i].id != id
    ensures Where(employees, IdIsNot(id)) == employees
  {
    WhereAll(employees, IdIsNot(id));
  }

  /** After deleting the selection, no surviving record has a formerly selected id, and every unselected record survives. */
  lemma DeleteSelectedKeepsUnselected(employees: seq<Employee>, selected: set<int>)
    ensures forall e :: e in Where(employees, NotSelected(selected)) <==> e in employees && e.id !in selected
  {
  }

  /** The `length + 1` scheme can hand out an id that is still in use once a record was deleted. */
  lemma IdReuseAfterDelete(a: EmployeeData, b: EmployeeData, c: EmployeeData)
    requires a.email != c.email && b.email != c.email
    ensures var before := [Employee(1, a, None), Employee(2, b, None)];
      var after := Where(before, IdIsNot(1));
      && !EmailTaken(after, c.email)
      && after + [Employee(|after| + 1, c, None)] == [Employee(2, b, None), Employee(2, c, None)]
  {
    var before := [Employee(1, a, None), Employee(2, b, None)];
    assert before[1..] == [Employee(2, b, None)];
    assert before[1..][1..] == [];
  }

  // ---------------------------------------------------------------------------
  // Email uniqueness

  /** No two records share an email. */
  predicate EmailsUnique(employees: seq<Employee>) {
    forall i, j :: 0 <= i < j < |employees| ==> employees[i].data.email != employees[j].data.email
  }

  /** No two records share an id. */
  predicate IdsUnique(employees: seq<Employee>) {
    forall i, j :: 0 <= i < j < |employees| ==> employees[i].id != employees[j].id
  }

  /** An add that passes the email check keeps the emails unique. */
  lemma AddKeepsEmailsUnique(employees: seq<Employee>, data: EmployeeData)
    requires EmailsUnique(employees) && !EmailTaken(employees, data.email)
    ensures EmailsUnique(employees + [Employee(|employees| + 1, data, None)])
  {
    var after := employees + [Employee(|employees| + 1, data, None)];
    forall i, j | 0 <= i < j < |after| ensures after[i].data.email != after[j].data.email {
      assert after[i] == employees[i];
    }
  }

  /**
   * An update that passes both checks keeps the emails unique, as long as the ids
   * are unique too: then every other record has another id, so the check saw it.
   */
  lemma UpdateKeepsEmailsUnique(employees: seq<Employee>, id: int, data: EmployeeData, now: string)
    requires EmailsUnique(employees) && IdsUnique(employees)
    requires IndexOfId(employees, id) != -1 && !EmailTakenByOther(employees, id, data.email)
    ensures var i := IndexOfId(employees, id);
      EmailsUnique(employees[i := employees[i].(data := data, updatedAt := Some(now))])
  {
    var i := IndexOfId(employees, id);
    var after := employees[i := employees[i].(data := data, updatedAt := Some(now))];
    forall j, k | 0 <= j < k < |after| ensures after[j].data.email != after[k].data.email {
      if j == i {
        assert employees[k].id != id;
      } else if k == i {
        assert employees[j].id != id;
      }
    }
  }

  /** A record whose email no later record has can go in front of records with unique emails. */
  lemma EmailsUniqueCons(x: Employee, rest: seq<Employee>)
    requires EmailsUnique(rest) && forall e :: e in rest ==> e.data.email != x.data.email
    ensures EmailsUnique([x] + rest)
  {
    var r := [x] + rest;
    forall j, k | 0 <= j < k < |r| ensures r[j].data.email != r[k].data.email {
      assert r[k] == rest[k - 1];
      if j > 0 {
        assert r[j] == rest[j - 1];
      }
    }
  }

  /** Filtering, and so either delete, keeps the emails unique. */
  lemma {:induction false} WhereKeepsEmailsUnique(s: seq<Employee>, keep: Employee -> bool)
    requires EmailsUnique(s)
    ensures EmailsUnique(Where(s, keep))
  {
    if s != [] {
      var tail := s[1..];
      assert EmailsUnique(tail) by {
        forall i, j | 0 <= i < j < |tail| ensures tail[i].data.email != tail[j].data.email {
          assert tail[i] == s[i + 1] && tail[j] == s[j + 1];
        }
      }
      WhereKeepsEmailsUnique(tail, keep);
      var rest := Where(tail, keep);
      if keep(s[0]) {
        forall e | e in rest ensures e.data.email != s[0].data.email {
          var m :| 0 <= m < |tail| && tail[m] == e;
          assert tail[m] == s[m + 1];
        }
        EmailsUniqueCons(s[0], rest);
      } else {
        assert Where(s, keep) == [] + rest;
      }
    }
  }

  /**
   * Once ids repeat (see `IdReuseAfterDelete`), an edit can copy another record's
   * email: the check skips every record with the edited id, so the duplicate passes.
   */
  lemma EmailClashAfterIdReuse(b: EmployeeData, c: EmployeeData, now: string)
    requires b.email != c.email
    ensures var before := [Employee(2, b, None), Employee(2, c, None)];
      var data := b.(email := c.email);
      var i := IndexOfId(before, 2);
      && EmailsUnique(before) && !IdsUnique(before)
      && i == 0 && !EmailTakenByOther(before, 2, data.email)
      && !EmailsUnique(before[i := before[i].(data := data, updatedAt := Some(now))])
  {
    var before := [Employee(2, b, None), Employee(2, c, None)];
    var after := before[0 := before[0].(data := b.(email := c.email), updatedAt := Some(now))];
    assert after[0].data.email == after[1].data.email;
  }
}

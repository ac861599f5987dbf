/**
 * The employee list page: a component that keeps a snapshot of the store (the
 * records of the current page, the page count, view type, query and selection)
 * and turns user actions into store calls. The store notifies the page
 * synchronously after every store setter; here the page calls `UpdateFromStore`
 * itself right after each such call.
 */
module EmployeeListPage {
  import opened EmployeeStore
  import opened Pagination

  /** The ids of the given records. */
  function IdsOf(employees: seq<Employee>): (r: set<int>)
    ensures forall id :: id in r <==> exists i :: 0 <= i < |employees| && employees[i].id == id
  {
    set i | 0 <= i < |employees| :: employees[i].id
  }

  class EmployeeList {
    const store: Store
    var employees: seq<Employee>
    var currentPage: int
    var totalPages: nat
    var viewType: ViewType
    var searchQuery: string
    var selectedEmployees: set<int>
    var showDeleteConfirmation: bool
    var employeeToDelete: Option<Employee>

    /** The component's snapshot agrees with the store, as `_updateFromStore` leaves it. */
    ghost predicate InSync()
      reads this, store
    {
      var page := store.GetFilteredEmployees();
      && employees == page.items
      && currentPage == store.currentPage
      && totalPages == TotalPages(page.total, store.itemsPerPage)
      && viewType == store.viewType
      && searchQuery == store.searchQuery
      && selectedEmployees == store.selectedEmployees
    }

    constructor (store: Store)
      ensures this.store == store && InSync()
      ensures !showDeleteConfirmation && employeeToDelete == None
    {
      this.store := store;
      var page := store.GetFilteredEmployees();
      employees := page.items;
      currentPage := store.currentPage;
      totalPages := TotalPages(page.total, store.itemsPerPage);
      viewType := store.viewType;
      searchQuery := store.searchQuery;
      selectedEmployees := store.selectedEmployees;
      showDeleteConfirmation := false;
      employeeToDelete := None;
    }

    /** `_updateFromStore`: refreshes the snapshot, with `totalPages = ceil(total / itemsPerPage)`. */
    method UpdateFromStore()
      modifies this
      ensures InSync()
      ensures showDeleteConfirmation == old(showDeleteConfirmation) && employeeToDelete == old(employeeToDelete)
    {
      var page := store.GetFilteredEmployees();
      employees := page.items;
      currentPage := store.currentPage;
      totalPages := TotalPages(page.total, store.itemsPerPage);
      viewType := store.viewType;
      searchQuery := store.searchQuery;
      selectedEmployees := store.selectedEmployees;
    }

    method SetViewType(t: ViewType)
      modifies this, store`viewType
      ensures store.viewType == t && InSync()
      ensures showDeleteConfirmation == old(showDeleteConfirmation) && employeeToDelete == old(employeeToDelete)
    {
      store.SetViewType(t);
      UpdateFromStore();
    }

    /** `_changePage`: moves to `page` only when it lies within 1..totalPages. */
    method ChangePage(page: int)
      modifies this, store`currentPage
      ensures 1 <= page <= old(totalPages) ==> store.currentPage == page && InSync()
      ensures !(1 <= page <= old(totalPages)) ==> store.currentPage == old(store.currentPage) && unchanged(this)
      ensures old(store.currentPage) >= 1 ==> store.currentPage >= 1
      ensures showDeleteConfirmation == old(showDeleteConfirmation) && employeeToDelete == old(employeeToDelete)
    {
      if page >= 1 && page <= totalPages {
        store.SetCurrentPage(page);
        UpdateFromStore();
      }
    }

    /**
     * `_handleSelectAll`: checking replaces the selection with the ids of the records on
     * the page shown; unchecking empties the whole selection.
     */
    method HandleSelectAll(checked: bool)
      modifies this, store`selectedEmployees
      ensures forall id :: id in store.selectedEmployees <==>
        checked && exists i :: 0 <= i < |old(employees)| && old(employees)[i].id == id
      ensures InSync()
      ensures showDeleteConfirmation == old(showDeleteConfirmation) && employeeToDelete == old(employeeToDelete)
    {
      if checked {
        store.selectedEmployees := IdsOf(employees);
      } else {
        store.selectedEmployees := {};
      }
      UpdateFromStore();
    }

    /** `_handleSelectEmployee`: toggles one id in the store's selection. */
    method HandleSelectEmployee(id: int)
      modifies this, store`selectedEmployees
      ensures store.selectedEmployees == Toggled(old(store.selectedEmployees), id) && InSync()
      ensures showDeleteConfirmation == old(showDeleteConfirmation) && employeeToDelete == old(employeeToDelete)
    {
      store.ToggleEmployeeSelection(id);
      UpdateFromStore();
    }

    /** `_handleSearch`: sets the query and always goes back to page 1. */
    method HandleSearch(query: string)
      modifies this, store`searchQuery, store`currentPage
      ensures store.searchQuery == query && store.currentPage == 1 && InSync()
      ensures showDeleteConfirmation == old(showDeleteConfirmation) && employeeToDelete == old(employeeToDelete)
    {
      store.SetSearchQuery(query);
      UpdateFromStore();
      store.SetCurrentPage(1);
      UpdateFromStore();
    }

    /** `_clearSearch`: empties the query and goes back to page 1. */
    method ClearSearch()
      modifies this, store`searchQuery, store`currentPage
      ensures store.searchQuery == "" && store.currentPage == 1 && InSync()
      ensures showDeleteConfirmation == old(showDeleteConfirmation) && employeeToDelete == old(employeeToDelete)
    {
      store.SetSearchQuery("");
      UpdateFromStore();
      store.SetCurrentPage(1);
      UpdateFromStore();
    }

    /** `_deleteEmployee`: stages the record and opens the confirmation, without touching the store. */
    method StageDelete(employee: Employee)
      modifies this`employeeToDelete, this`showDeleteConfirmation
      ensures employeeToDelete == Some(employee) && showDeleteConfirmation
    {
      employeeToDelete := Some(employee);
      showDeleteConfirmation := true;
    }

    /**
     * `_handleDeleteConfirm`: deletes the staged record's id, then clears the stage and
     * closes the confirmation; with nothing staged it does nothing.
     */
    method HandleDeleteConfirm()
      modifies this, store`employees, store`selectedEmployees
      ensures old(employeeToDelete).Some? ==>
        var id := old(employeeToDelete).value.id;
        && store.employees == Where(old(store.employees), IdIsNot(id))
        && store.selectedEmployees == old(store.selectedEmployees) - {id}
        && employeeToDelete == None && !showDeleteConfirmation
        && InSync()
      ensures old(employeeToDelete).None? ==> unchanged(this) && unchanged(store)
    {
      if employeeToDelete.Some? {
        DeleteStaged();
      }
    }

    /** The branch of `_handleDeleteConfirm` taken when a record is staged. */
    method DeleteStaged()
      requires employeeToDelete.Some?
      modifies this, store`employees, store`selectedEmployees
      ensures var id := old(employeeToDelete).value.id;
        && store.employees == Where(old(store.employees), IdIsNot(id))
        && store.selectedEmployees == old(store.selectedEmployees) - {id}
      ensures employeeToDelete == None && !showDeleteConfirmation && InSync()
    {
      var id := employeeToDelete.value.id;
      ghost var before, selected := store.employees, store.selectedEmployees;
      store.DeleteEmployee(id);
      assert store.employees == Where(before, IdIsNot(id)) && store.selectedEmployees == selected - {id};
      UpdateFromStore();
      employeeToDelete := None;
      showDeleteConfirmation := false;
    }

    /** The confirmation's cancel handler: clears the stage and closes, deleting nothing. */
    method HandleDeleteCancel()
      modifies this`employeeToDelete, this`showDeleteConfirmation
      ensures employeeToDelete == None && !showDeleteConfirmation
    {
      showDeleteConfirmation := false;
      employeeToDelete := None;
    }
  }

  /**
   * The page only ever sets the store's page to 1 or to a page within 1..totalPages, so
   * from a store created on page 1 the current page stays at least 1. With the snapshot in
   * sync and records shown, the current page then lies within the page count, where the
   * pagination lemmas apply.
   */
  lemma ShownPageInRange(list: EmployeeList)
    requires list.InSync() && list.currentPage >= 1 && list.employees != []
    ensures 1 <= list.currentPage <= list.totalPages
  {
    var store := list.store;
    RenderedPageInRange(store.employees, store.searchQuery, store.currentPage, store.itemsPerPage);
  }

  /**
   * Staging a delete and confirming it removes exactly the staged id; staging and
   * cancelling leaves the store as it was.
   */
  method DeleteFlows(list: EmployeeList, employee: Employee, confirm: bool)
    modifies list, list.store`employees, list.store`selectedEmployees
    ensures confirm ==> list.store.employees == Where(old(list.store.employees), IdIsNot(employee.id))
    ensures !confirm ==> list.store.employees == old(list.store.employees)
    ensures list.employeeToDelete == None && !list.showDeleteConfirmation
  {
    list.StageDelete(employee);
    if confirm {
      list.HandleDeleteConfirm();
    } else {
      list.HandleDeleteCancel();
    }
  }
}

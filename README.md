# Employee management: store, list page and form, in Dafny

This project models the core of a small employee-management web application:

- the in-memory **employee store**: the ordered list of employee records, the list's view state (current page, page size 12, table or grid view, search query) and the set of selected ids, with the operations on them;
- the **employee list page**: the component's snapshot of the store, its page count, the pagination bar, page changes, select-all, search and the delete-with-confirmation flow;
- the **add/edit employee form**: phone-number formatting as the user types, the field-by-field validation rules and their messages, and submission through the store, with a confirmation step before an edit.

Modules:

- `JsText` (`js_text.dfy`): the JavaScript string operations the core relies on. These are `trim`-blankness, `toLowerCase`, `includes`, `slice` and stripping non-digits.
- `EmployeeStore` (`employee_store.dfy`): the records and the `Store` class.
- `Pagination` (`pagination.dfy`): the page count and the pagination bar. The bar is a sequence of tokens instead of markup.
- `EmployeeListPage` (`employee_list.dfy`): the `EmployeeList` class.
- `PhoneFormat` (`phone_format.dfy`): the `+90 DDD DDD DD DD` formatter.
- `FormValidation` (`form_validation.dfy`): the validation rules and the errors object.
- `EmployeeModalForm` (`employee_modal.dfy`): the `EmployeeModal` class.

Store failures are modelled as values, not exceptions. A mutation returns `Outcome`, which is `Done` or `Failed(error)`. Each `StoreError` carries the exact message the store throws. The errors object of the form is a `map<Field, string>`, and an absent key is an absent property. The form's current year and the parsed birth year are parameters. The parsed birth year is `None` when the date does not parse, which is where `getFullYear()` gives `NaN`. The timestamp an update stamps on the record is also a parameter.

## Model

| member | source | states |
|---|---|---|
| EmployeeStore.Store.constructor | src/store/employee-store.js:58-64 | the store starts on page 1, in table view, with an empty query, nothing selected, over the given records |
| EmployeeStore.Store.SetViewType | src/store/employee-store.js:66 | the view type becomes the given one |
| EmployeeStore.Store.SetCurrentPage | src/store/employee-store.js:67 | the current page becomes the given one, with no bounds check |
| EmployeeStore.Store.SetSearchQuery | src/store/employee-store.js:68 | the query becomes the given one |
| EmployeeStore.Toggled | src/store/employee-store.js:70-79 | after a toggle, the id is selected exactly when it was not; every other id keeps its state |
| EmployeeStore.ToggleTwice | src/store/employee-store.js:70-79 | toggling the same id twice restores the selection |
| EmployeeStore.Store.ToggleEmployeeSelection | src/store/employee-store.js:70-79 | the selection becomes the toggled selection |
| EmployeeStore.Store.AddEmployee | src/store/employee-store.js:81-92 | fails with the duplicate-email error exactly when some record already has the email, and then nothing changes; otherwise appends the record with id `length + 1`; unique emails stay unique |
| EmployeeStore.IndexOfId | src/store/employee-store.js:97 | `findIndex`: the first position holding the id, or -1 exactly when no record has it |
| EmployeeStore.Store.UpdateEmployee | src/store/employee-store.js:94-119 | "not found" exactly when no record has the id; otherwise "email exists" exactly when another id has the new email; failures change nothing; success overwrites the eight fields of the first record with that id and stamps it, keeping its id and position; unique emails stay unique while the ids are unique |
| EmployeeStore.Where | src/store/employee-store.js:123 | `filter`: keeps exactly the records that pass, and is never longer |
| EmployeeStore.WhereAppend | src/store/employee-store.js:123 | filtering keeps relative order: filtering a concatenation concatenates the filtered parts |
| EmployeeStore.Store.DeleteEmployee | src/store/employee-store.js:121-125 | removes every record with the id, keeping order, and drops the id from the selection; unique emails stay unique |
| EmployeeStore.DeleteAbsentIsNoop | src/store/employee-store.js:121-125 | deleting an id no record has leaves the records unchanged |
| EmployeeStore.Store.DeleteSelectedEmployees | src/store/employee-store.js:127-131 | removes the records whose id is selected, keeping order, and empties the selection; unique emails stay unique |
| EmployeeStore.DeleteSelectedKeepsUnselected | src/store/employee-store.js:127-131 | a record survives exactly when it was present and its id was not selected |
| EmployeeStore.IdReuseAfterDelete | src/store/employee-store.js:90 | after deleting id 1 of two records, adding a third gives it id 2 again, so two records share an id |
| EmployeeStore.EmailsUnique | src/store/employee-store.js:84-86 | no two records share an email, the invariant the add and update checks aim to keep |
| EmployeeStore.IdsUnique | src/store/employee-store.js:90 | no two records share an id |
| EmployeeStore.AddKeepsEmailsUnique | src/store/employee-store.js:84-90 | an add that passes the email check keeps the emails unique |
| EmployeeStore.UpdateKeepsEmailsUnique | src/store/employee-store.js:97-117 | an update that passes both checks keeps the emails unique when the ids are unique |
| EmployeeStore.WhereKeepsEmailsUnique | src/store/employee-store.js:121-131 | filtering, and so either delete, keeps the emails unique |
| EmployeeStore.EmailClashAfterIdReuse | src/store/employee-store.js:104-117 | with two records sharing id 2, editing the first to the second's email passes the check, and afterwards two records share an email |
| EmployeeStore.EmailTaken | src/store/employee-store.js:84 | `some(emp => emp.email === email)`: some record has the email; `AddEmployee` fails exactly then |
| EmployeeStore.EmailTakenByOther | src/store/employee-store.js:104-106 | some record with another id has the email; `UpdateEmployee` fails with "email exists" exactly then |
| EmployeeStore.EmailTakenCases | src/store/employee-store.js:104-110 | an email used by another id is in use; an email in use but not by another id belongs only to records with the edited id, so keeping one's own email is accepted |
| EmployeeStore.MatchesQuery | src/store/employee-store.js:140-145 | the filter's three `includes` tests on the lower-cased names; `MatchesFullName` reduces them to the full-name test |
| EmployeeStore.MatchesFullName | src/store/employee-store.js:140-145 | a record matches the query exactly when its lower-cased "first last" contains the lower-cased query; the first- and last-name tests are subsumed |
| EmployeeStore.EmptyQueryMatchesAll | src/store/employee-store.js:138 | the empty-query shortcut agrees with the filter, since every name contains "" |
| EmployeeStore.Filtered | src/store/employee-store.js:135-146 | the filtered records: exactly the stored records matching the lower-cased query (all of them for the empty query), never more |
| EmployeeStore.FilteredPage | src/store/employee-store.js:133-155 | the page holds at most `size` records, each a stored record matching the query, and `total` never exceeds the number of records |
| EmployeeStore.Store.GetFilteredEmployees | src/store/employee-store.js:133-155 | on the store's own state: at most 12 records, each stored and matching the current query |
| EmployeeStore.FilteredPageMatches | src/store/employee-store.js:133-155 | every returned record is a stored record matching the query; `total` counts exactly the matching records, and all records for the empty query |
| EmployeeStore.FilteredPageWindow | src/store/employee-store.js:148-154 | from page 1 on, the items are the contiguous block of matches starting at `(page-1)*12`, clipped to the end, never more than a page |
| Pagination.TotalPages | src/pages/employee-list.js:402 | `Math.ceil(total / itemsPerPage)`: the least page count whose pages hold every match |
| Pagination.Window | src/pages/employee-list.js:675-680 | the window's first and last page, computed as the component does; `WindowBounds` states its range |
| Pagination.WindowBounds | src/pages/employee-list.js:675-680 | for a current page in range, the window lies in range, contains the current page and spans min(5, totalPages) pages |
| Pagination.Leading | src/pages/employee-list.js:682-687 | the page-1 button, and an ellipsis after it when the window starts after page 2; `ShownLeading` and `PaginationEdges` state what it shows |
| Pagination.Trailing | src/pages/employee-list.js:700-709 | an ellipsis when the window ends before the second-to-last page, then the last-page button; `ShownTrailing` and `PaginationEdges` state what it shows |
| Pagination.PaginationTokens | src/pages/employee-list.js:662-722 | the whole bar in push order; `PaginationPages`, `PaginationEdges` and `PaginationActive` state its properties |
| Pagination.RenderPaginationNumbers | src/pages/employee-list.js:656-725 | the method's output is the bar: Prev, page 1 and an ellipsis when hidden, the window, an ellipsis and the last page when hidden, Next |
| Pagination.PushPageRange | src/pages/employee-list.js:689-698 | the loop appends one button per page of the window, in order, the current one active |
| Pagination.PageRun | src/pages/employee-list.js:689-698 | the k-th button of the run is page `first + k`, active exactly when it is the current page |
| Pagination.ShownBar | src/pages/employee-list.js:682-709 | the pages on the buttons are page 1 if the window starts after it, the window, and the last page if the window ends before it |
| Pagination.PaginationPages | src/pages/employee-list.js:675-709 | for a current page in range, the page numbers drawn are strictly increasing (none twice), start at 1, end at the last page and include the current page |
| Pagination.PaginationEdges | src/pages/employee-list.js:662-722 | Prev is disabled exactly on page 1, Next exactly on the last page; an ellipsis follows page 1 exactly when the window starts after page 2, and precedes the last page exactly when it ends before the second-to-last |
| Pagination.PaginationActive | src/pages/employee-list.js:689-698 | among all page buttons, only the current page's is active |
| Pagination.RenderedPageInRange | src/pages/employee-list.js:467-473 | for a current page of at least 1 that shows records, the page lies between 1 and the page count, so the properties above apply to the bar drawn |
| EmployeeListPage.EmployeeList.constructor | src/pages/employee-list.js:384-390 | the component starts in sync with the store and with no delete staged |
| EmployeeListPage.EmployeeList.UpdateFromStore | src/pages/employee-list.js:397-407 | afterwards the snapshot equals the store's current page of matches, its page, view, query and selection, and the page count is the ceiling of total over page size |
| EmployeeListPage.EmployeeList.SetViewType | src/pages/employee-list.js:648-650 | the store's view type changes and the snapshot follows |
| EmployeeListPage.EmployeeList.ChangePage | src/pages/employee-list.js:727-731 | moves to the page exactly when it lies in 1..totalPages; otherwise nothing changes; a store page of at least 1 stays at least 1 |
| EmployeeListPage.ShownPageInRange | src/pages/employee-list.js:727-731 | with the snapshot in sync, a store page of at least 1 (where the store starts, and which only `ChangePage`, `HandleSearch` and `ClearSearch` change, to pages of at least 1) and records shown, the current page lies in 1..totalPages |
| EmployeeListPage.EmployeeList.HandleSelectAll | src/pages/employee-list.js:733-747 | checking makes the selection exactly the ids on the page shown, dropping other selections; unchecking empties it |
| EmployeeListPage.EmployeeList.HandleSelectEmployee | src/pages/employee-list.js:749-751 | toggles one id in the store's selection |
| EmployeeListPage.EmployeeList.HandleSearch | src/pages/employee-list.js:773-778 | sets the query and always returns to page 1 |
| EmployeeListPage.EmployeeList.ClearSearch | src/pages/employee-list.js:780-784 | empties the query and returns to page 1 |
| EmployeeListPage.EmployeeList.StageDelete | src/pages/employee-list.js:753-756 | stages the record and opens the confirmation without touching the store |
| EmployeeListPage.EmployeeList.HandleDeleteConfirm | src/pages/employee-list.js:758-764 | with a staged record, deletes its id from records and selection and closes; with none, changes nothing |
| EmployeeListPage.EmployeeList.HandleDeleteCancel | src/pages/employee-list.js:498-501 | clears the stage and closes, deleting nothing |
| EmployeeListPage.DeleteFlows | src/pages/employee-list.js:753-764 | stage then confirm removes exactly the staged id; stage then cancel leaves the records as they were |
| JsText.LowerIdempotent | src/store/employee-store.js:139-144 | lower-casing an already lower-cased string changes nothing |
| JsText.LowerAppend | src/store/employee-store.js:144 | lower-casing distributes over concatenation |
| JsText.SliceFromEnd | src/store/employee-store.js:152 | a negative start counts from the end: a start of -k takes the last k records |
| JsText.SlicePastEnd | src/store/employee-store.js:152 | a start at or past the end gives no records, whatever the end |
| JsText.SliceWidth | src/store/employee-store.js:148-152 | a window `slice(start, start + w)` holds at most w records, whatever the sign of start |
| JsText.DigitsChar | src/components/employee-modal.js:331 | `replace(/\D/g, '')` on one character keeps it exactly when it is a digit; with `DigitsAppend` this fixes the result for every string |
| JsText.DigitsKept | src/components/employee-modal.js:331 | every digit of the input is kept, and the result is as long as the input exactly when the input is all digits |
| JsText.DigitsAppend | src/components/employee-modal.js:331 | stripping non-digits distributes over concatenation |
| JsText.DigitsOfDigits | src/components/employee-modal.js:331 | a digit string is left as it is |
| PhoneFormat.FormatPhoneNumber | src/components/employee-modal.js:330-352 | `_formatPhoneNumber`: strip non-digits, then lay out; `FormatIsLayout`, `FormatShape`, `FormatIdempotent` and `FormatMatchesPattern` state what it returns |
| PhoneFormat.FormatNumbers | src/components/employee-modal.js:333-351 | the nested `formatted +=` slices on the digit string; `NumbersLayout` proves it equal to the prefix plus the grouped kept digits |
| PhoneFormat.PhonePattern | src/components/employee-modal.js:233 | the regex `^\+90 [0-9]{3} [0-9]{3} [0-9]{2} [0-9]{2}$` as a predicate; `FormatKeepsPattern` and `FormatMatchesPattern` relate it to the formatter |
| PhoneFormat.Kept | src/components/employee-modal.js:338-349 | the digits kept after the leading two: at most ten, none exactly when at most two digits were typed |
| PhoneFormat.LayoutCases | src/components/employee-modal.js:338-349 | the kept digits are grouped 3, 3, 2, 2 with single spaces, as far as they go |
| PhoneFormat.NumbersLayout | src/components/employee-modal.js:333-351 | the nested slices equal `+90 ` followed by the grouped kept digits, including the empty and `90` cases |
| PhoneFormat.FormatIsLayout | src/components/employee-modal.js:330-352 | the formatter is `+90 ` and the grouped third to twelfth digits typed |
| PhoneFormat.FormatBarePrefix | src/components/employee-modal.js:333-335 | the output is the bare `+90 ` exactly when at most two digits were typed |
| PhoneFormat.FormatShape | src/components/employee-modal.js:330-352 | the output is 4 to 17 characters long and starts with `+90 `; it has spaces at 7, 11 and 14 and digits elsewhere, never ends in a space, and its digits are `90` plus the kept digits |
| PhoneFormat.FormatMatchesPattern | src/components/employee-modal.js:233 | the output matches the validation pattern exactly when at least twelve digits were typed, and is never blank |
| PhoneFormat.FormatIdempotent | src/components/employee-modal.js:432-436 | formatting an already formatted value changes nothing |
| PhoneFormat.FormatKeepsPattern | src/components/employee-modal.js:432 | a number already in the pattern is a fixed point of the formatter |
| PhoneFormat.FormatExample | src/components/employee-modal.js:330-352 | typing `905551234567` gives `+90 555 123 45 67` |
| FormValidation.WithValue | src/components/employee-modal.js:317-320 | the form with one input replaced: that input holds the value, every other input is kept |
| FormValidation.CheckText | src/components/employee-modal.js:236-242 | records the "required" message for a name that is blank once trimmed, otherwise leaves the errors as they were |
| FormValidation.CheckChoice | src/components/employee-modal.js:244-246 | records the "required" message for an empty date or selection, otherwise leaves the errors |
| FormValidation.CheckBirthDate | src/components/employee-modal.js:248-256 | records "required" for an empty date, "at least 18" when the year difference is below 18, otherwise nothing |
| FormValidation.CheckPhone | src/components/employee-modal.js:258-262 | records "required" for a blank phone, the format message when the pattern fails, otherwise nothing |
| FormValidation.CheckEmail | src/components/employee-modal.js:264-268 | records "required" for a blank email, "invalid" when the pattern fails, otherwise nothing |
| FormValidation.FieldError | src/components/employee-modal.js:236-276 | the rule for each input and its message; `ErrorEntry` and `BirthDateEntry` state them |
| FormValidation.FormErrors | src/components/employee-modal.js:231-278 | the errors object as one entry per failing input; `ValidIffAllRules` states when it is empty |
| FormValidation.RecordAllIsFormErrors | src/components/employee-modal.js:231-278 | recording the rules in source order gives one entry per failing input, holding that input's message |
| FormValidation.ValidationSteps | src/components/employee-modal.js:231-279 | the chain of checks builds that errors object, and it has no keys exactly when every rule passes |
| FormValidation.ValidIffAllRules | src/components/employee-modal.js:278-279 | the form is valid exactly when both names are non-blank, the dates and selections are non-empty, the age reaches 18 and phone and email match their patterns |
| FormValidation.ErrorEntry | src/components/employee-modal.js:231-278 | an input has an entry exactly when its rule fails, and it holds that rule's message |
| FormValidation.BirthDateEntry | src/components/employee-modal.js:248-256 | the date of birth fails exactly when it is empty or it parses and the year difference is below 18; the message says which |
| FormValidation.AgeBoundary | src/components/employee-modal.js:252-253 | born 17 calendar years ago fails, 18 passes, whatever the month and day |
| FormValidation.FormattedPhoneRule | src/components/employee-modal.js:258-262 | a reformatted phone passes exactly when at least twelve digits were typed; otherwise it fails with the format message, never "required" |
| FormValidation.PhonePatternNotBlank | src/components/employee-modal.js:258-260 | a number matching the pattern is never blank, so "required" and "format" never both apply |
| FormValidation.EmailPatternNotBlank | src/components/employee-modal.js:264-266 | an address matching the pattern is never blank |
| FormValidation.EmailPattern | src/components/employee-modal.js:234 | the regex `^[^\s@]+@[^\s@]+\.[^\s@]+$` as a predicate; `EmailRejects` and `EmailExamples` check it |
| FormValidation.EmailRejects | src/components/employee-modal.js:234 | an address with white space at any position, or with `@` at two positions, is rejected |
| FormValidation.EmailExamples | src/components/employee-modal.js:234 | `a@b.c` matches; `a@b`, `a@.bc` and `@b.c` do not |
| EmployeeModalForm.EmployeeModal.constructor | src/components/employee-modal.js:194-200 | the modal starts closed, with no employee, an empty form, no errors and no confirmation |
| EmployeeModalForm.EmployeeModal.ResetForm | src/components/employee-modal.js:217-229 | every input becomes empty and every error is dropped |
| EmployeeModalForm.EmployeeModal.SetEmployee | src/components/employee-modal.js:202-215 | setting a record copies its eight fields into the form; clearing it keeps the form |
| EmployeeModalForm.EmployeeModal.ValidateForm | src/components/employee-modal.js:231-280 | installs exactly the errors object of the current form and returns true exactly when it is empty, which is exactly when every rule passes |
| EmployeeModalForm.SubmitError | src/store/employee-store.js:81-119 | the store error a submit meets, in the store's order: not found, then email in use by another id for an edit; email in use for an add; `SubmitForm` and `HandleSubmit` state the outcome |
| EmployeeModalForm.EmployeeModal.SubmitForm | src/components/employee-modal.js:297-313 | commits through the store: on a store error, its message goes under email and the records, form and open state are kept; on success the record is appended (add) or overwritten and stamped (edit), the form is reset and the modal closes; busy flag and confirmation end cleared |
| EmployeeModalForm.EmployeeModal.HandleSubmit | src/components/employee-modal.js:282-295 | an invalid form only shows its errors; a valid edit only opens the confirmation; in both the records, form, open state and busy flag are kept; a valid new record is committed at once, with the store's outcome, and the busy flag ends cleared |
| EmployeeModalForm.EmployeeModal.CancelConfirmation | src/components/employee-modal.js:518 | closes the confirmation without committing |
| EmployeeModalForm.EmployeeModal.Close | src/components/employee-modal.js:495 | closes the modal, keeping the form |
| EmployeeModalForm.EmployeeModal.HandleInput | src/components/employee-modal.js:315-328 | replaces one input's value, keeping the others; blanks that input's error message only when it shows one; no error key is added or removed |
| EmployeeModalForm.EmployeeModal.HandlePhoneInput | src/components/employee-modal.js:433-437 | stores the reformatted number; it then matches the phone pattern exactly when at least twelve digits were typed |

## Left out

- The initial records come from a random generator (`generateDummyEmployees`). The store is created over any given sequence instead.
- The subscription mechanism of the state container is not modelled. The list page's `UpdateFromStore` is called explicitly right after each store call the page itself makes, where the container would call it synchronously. The modal's `AddEmployee` and `UpdateEmployee` calls also refresh the list page in the application (employee-list.js:386), but the model never composes the page with the modal, so nothing states the list's snapshot after a submit.
- `async`/`await`: each call runs to completion before the next. The transient `isSubmitting == true` state in the middle of `SubmitForm` is not observable in the model.
- Date parsing and the clock are parameters. `currentYear` stands for `new Date().getFullYear()`. `birthYear` stands for the year of the parsed date of birth, `None` when it does not parse (the source then compares with `NaN`, and no age error is recorded). The ISO timestamp an update stamps is the `now` parameter.
- JsText.LowerChar: lower-cases ASCII, the Latin-1 capitals and the Turkish `Ğ` and `Ş`. Other characters, including the dotted capital `İ` (which the real conversion turns into two characters), are left as they are. Strings are sequences of characters, not UTF-16 code units.
- JsText.IsSpace: covers the JavaScript white-space and line-terminator characters used by `trim` and `\s`, character by character.
- EmployeeStore.Store.UpdateEmployee: the data passed in has exactly the eight form fields, so the spread cannot overwrite the record's id. The source would accept any object there.
- Rendering, CSS, translations, icons, the grid and table markup, the `.value` fallback for the phone field, and the confirmation-modal, header, login and router components are not part of this model.
- Pagination.RenderPaginationNumbers: takes the component's current page and page count as parameters. Its click handlers are modelled as `EmployeeListPage.EmployeeList.ChangePage`.
- EmployeeStore.EmailsUnique: the model does not prove that emails are unique at all times, because the source does not keep it. Add and both deletes preserve it. An update preserves it only while ids are unique. Ids stop being unique after a delete followed by an add (`IdReuseAfterDelete`), and `UpdateEmployee` can then copy another record's email (`EmailClashAfterIdReuse`). The random seed records can also repeat an email from the start: their emails come from only 10 first names × 10 last names, drawn at random for 100 records (employee-store.js:38-51).
- `_handleEdit` creates a second modal in the page body. The model has one `EmployeeModal` whose `SetEmployee` plays that role.

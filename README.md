# Budget tracker core, modelled in Dafny

This project models the business rules of a Django project and budget tracker for a university. Departments run projects that belong to a fiscal year. A project is funded by budget sources (government, accumulated or revenue money) and split into numbered activities. Staff record expenses against activities, and heads or admins approve or reject them. Money moves between activities by budget transfers. A project is deleted directly by an admin or through a delete request that an admin reviews. Accounts are local users or users provisioned from the university directory (NPU), and directory users pass through an approval step. A command run daily at 08:00 sends LINE deadline reminders, and a dashboard summarises what each user sees.

The model is organised as follows:

- **Values.** Money is an integer number of satang, which is exact for the source's `Decimal(12, 2)`. Dates are day numbers. Timestamps are integers supplied by the caller. Statuses, roles and budget types are enums.
- **Tables.** Database tables are sequences of rows.
- **Stores.** The project-side tables are fields of the class `ProjectStore.Store`: projects, activities, budget sources, activity reports, transfers, delete requests, expenses and attachments. The account-side tables are fields of `AccountStore.Accounts`: users, departments, fiscal years and approved organisations.
- **Views.** Each view that changes data is a method on these classes with a `modifies` frame. Its `ensures` ties the new tables and its outcome to a pure specification function of the old tables. The lemmas next to each function prove what the view promises: permissions, invariants such as "at most one active fiscal year" and "the cached total budget equals the sum of the sources", conservation of a transfer, and uniqueness of numbering.
- **Pure checks.** Forms, validators, visibility filters and role gates are pure functions that return a `Result` or an `Option`. Their error paths are modelled as well as their accepted inputs.
- **Deadline alerts.** The command that sends deadline alerts keeps its nested loops as methods. Each loop is proved equal to a fold (`DeadlineAlerts.Run`) over the list of alerts the command considers.
- **Oracles.** Calls into code outside the core become parameters. These are the password check and password hashing, the directory's response, the LINE service's outcome, the audit store's failure, and the default approval status of a new profile.

Files, by the part of the application they model:

- accounts: `accounts_models`, `account_store`, `accounts_backends`, `npu_api`, `accounts_forms`, `accounts_views`, `accounts_gates`, `accounts_audit`
- budget: `budget_models`, `budget_forms`, `budget_utils`, `budget_views`
- projects: `projects_models`, `projects_forms`, `projects_utils`, `projects_signals`, `projects_views`, `numbering`, `project_store`
- notifications: `deadline_alerts`
- dashboard: `dashboard`
- shared helpers: `wrappers` (Option and Result), `ids`, `money`, `pystr` (Python `str.strip` and `split`), `constraints` (unique columns), `seqs` (filters and sums)

## Model

| member | source | states |
|---|---|---|
| BudgetForms.CleanAmount | apps/budget/forms.py:32-36 | an amount is accepted exactly when it is greater than 0, and then unchanged |
| BudgetForms.ExpenseCleanAsWritten | apps/budget/forms.py:38-52 | as written: the form fails exactly when activity and a non-zero amount are present and the amount exceeds the allocation minus approved spending, plus the old amount of a saved pending instance |
| BudgetForms.ExpenseClean | apps/budget/forms.py:38-52 | corrected: the same check with no add-back, so every submission is compared with allocation minus approved spending |
| BudgetForms.ExpenseCleanAgreesWithoutAddBack | apps/budget/forms.py:45-46 | for a new expense, or a saved one that is no longer pending, the check as written and the corrected check give the same answer |
| BudgetForms.AcceptedNewExpenseFitsAllocation | apps/budget/forms.py:40-51 | approving a new expense that passed the check keeps the activity's approved spending within its allocated budget |
| BudgetForms.AcceptedEditFitsAllocation | apps/budget/forms.py:40-51 | approving a pending row after an edit that passed the corrected check keeps spending within the allocation |
| BudgetForms.AddBackAcceptsBeyondRemaining | apps/budget/forms.py:44-47 | as written, an edit of a pending row is accepted up to remaining plus the old amount, where a new expense of the same amount is refused |
| BudgetForms.AddBackOverspendExample | apps/budget/forms.py:44-47 | allocation 100.00, 100.00 approved, 50.00 pending: re-submitting the pending row passes as written, and approving it brings spending to 150.00 |
| BudgetForms.CleanApprovalForm | apps/budget/forms.py:55-65 | the action is accepted exactly when it is 'approved' or 'rejected', giving that non-pending status; the optional remark is stripped |
| BudgetModels.ParseExpenseStatus | apps/budget/models.py:6-10 | a status is accepted exactly when it is one of the three choice keys, and maps back to the same key |
| BudgetModels.NewExpense | apps/budget/models.py:36-52 | a new expense is pending, with no approver, no approval time, no remark and no linked report |
| BudgetModels.ParseBudgetType | apps/budget/models.py:117-121 | a budget type is accepted exactly when it is government, accumulated or revenue |
| Money.DigitCount | apps/budget/models.py:19 | the digit count d of n is the least d with n < 10^d |
| Money.FitsAmountFieldBound | apps/budget/models.py:19 | an amount fits max_digits=12, decimal_places=2 exactly when its magnitude in satang is below 10^12 |
| Constraints.InsertUnique | apps/projects/models.py:7 | an insert under a unique key succeeds exactly when the key is free; it appends the row and keeps keys unique |
| ProjectsModels.ParseProjectStatusChoice | apps/projects/models.py:22-27 | a project status is accepted exactly when it is one of the four STATUS_CHOICES keys; 'not_started' is never accepted |
| ProjectsModels.WithBudget | apps/projects/views.py:503-509 | writing budget_<type> changes that one field to the new value and leaves every other field of the activity as it was |
| ProjectsModels.TotalAllocatedNoActivities | apps/projects/models.py:77-81 | a project without activities has total_allocated 0 |
| ProjectsModels.TotalAllocatedUpdate | apps/projects/models.py:77-81 | replacing one activity changes total_allocated by exactly the change in that activity's allocation to the project |
| ProjectsModels.TotalAllocatedAppend | apps/projects/models.py:77-81 | adding an activity adds its allocation to its own project's total only |
| ProjectsModels.ActivitySpentUpdate | apps/projects/models.py:145-149 | replacing one expense changes an activity's total_spent by exactly the change in that row's approved amount |
| ProjectsModels.ActivitySpentAppend | apps/projects/models.py:145-149 | a new expense adds its amount to total_spent only if it is approved and of that activity |
| ProjectsModels.UndecidedExpenseNotSpent | apps/projects/models.py:145-149 | a pending or rejected expense never changes total_spent |
| ProjectsModels.ProjectSpentSameProjects | apps/projects/models.py:84-89 | Project.total_spent depends only on which project each activity belongs to |
| ProjectsModels.ProjectRemainingIgnoresAllocation | apps/projects/models.py:91-93 | Project.remaining_budget is total_budget minus approved spending; changing activity allocations does not change it |
| ProjectsModels.UsagePercent | apps/projects/models.py:95-99 | budget_usage_percent is 0 when the denominator is not positive, and otherwise spent·100 / denominator, exactly |
| ProjectsModels.UsageReachesThreshold | apps/projects/models.py:155-159 | usage reaches a threshold exactly when spent·100 ≥ threshold·allocated, with no floating point |
| Numbering.MaxOr0 | apps/projects/views.py:207-209 | the largest existing number, or 0 when there is none |
| Numbering.NextNumber | apps/projects/views.py:207-210 | the next number is at least 1, larger than every existing one, and 1 when there are none |
| Numbering.NextNumberIsLeast | apps/projects/views.py:207-210 | the next number is the least positive number above every existing one |
| ProjectsForms.ProjectSources | apps/projects/forms.py:173 | the sources the form works with are exactly those of its own project, and none without a project |
| ProjectsForms.ActivityFormFields | apps/projects/forms.py:175-185 | allocated_budget is offered exactly when the project has no sources; budget_<type> is offered exactly for the source types the project has; every other declared field is always offered |
| ProjectsForms.CheckCap | apps/projects/forms.py:206-215 | accepted exactly when there is no project or the other activities' allocation plus the amount stays within total_budget; the error carries the amount still available |
| ProjectsForms.CleanAllocatedBudget | apps/projects/forms.py:201-216 | an amount ≤ 0 is refused first; otherwise accepted exactly when the cap holds, and the accepted value is the amount itself |
| ProjectsForms.AcceptedEditKeepsCap | apps/projects/forms.py:206-215 | after an accepted edit of an activity's allocation, the project's total_allocated is within its total_budget |
| ProjectsForms.AcceptedNewActivityKeepsCap | apps/projects/forms.py:206-215 | after an accepted new activity, the project's total_allocated is within its total_budget |
| ProjectsForms.SourceModeTotalIgnoresAbsentTypes | apps/projects/forms.py:227-230 | the source-mode total depends only on the inputs for the project's own source types; a missing input counts as 0 |
| ProjectsForms.CleanDates | apps/projects/forms.py:143-149 | refused exactly when both dates are given and the start is after the end |
| ProjectsForms.CleanActivity | apps/projects/forms.py:218-243 | the date check comes first; legacy mode checks only the dates; source mode also refuses a total ≤ 0 and a total beyond the cap |
| ProjectsForms.AcceptedSourceModeKeepsCap | apps/projects/forms.py:233-242 | an activity accepted in source mode, allocated its source total, keeps the project's total_allocated within total_budget |
| ProjectsForms.ReadFour | apps/projects/forms.py:132 | read(4) is the first min(4, size) bytes of the file |
| ProjectsForms.CleanDocument | apps/projects/forms.py:123-135 | no upload passes; an upload passes exactly when its content type is application/pdf, its size is at most 20 MiB and it starts with %PDF, each failure with its own error |
| ProjectsForms.CleanResponsiblePersons | apps/projects/forms.py:137-141 | refused exactly when no responsible person is chosen; otherwise the choice is returned unchanged |
| PyStr.LStrip | apps/accounts/audit.py:8 | the result is a suffix of the input, what was removed is whitespace, and it does not start with whitespace |
| PyStr.RStrip | apps/accounts/audit.py:8 | the result is a prefix of the input, what was removed is whitespace, and it does not end with whitespace |
| PyStr.Strip | apps/accounts/audit.py:8 | str.strip(): the result neither starts nor ends with whitespace |
| PyStr.StripIsInfix | apps/accounts/audit.py:8 | strip removes only leading and trailing whitespace: the input is whitespace + result + whitespace |
| PyStr.StripEmptyIffBlank | apps/accounts/forms.py:55-66 | a stripped field is empty exactly when the input is all whitespace, which is what makes a required field refuse blanks |
| PyStr.SplitFirst | apps/accounts/audit.py:8 | split(',')[0]: a prefix of the input without the separator, ending at the first separator if there is one |
| ProjectsSignals.SourceTotalNoSources | apps/projects/signals.py:10 | a project with no sources sums to 0 (the `or 0`) |
| ProjectsSignals.SourceTotalUpdate | apps/projects/signals.py:10 | replacing one source changes the sum by exactly the change in that source's amount for the project |
| ProjectsSignals.SourceTotalRemove | apps/projects/signals.py:10 | removing one source subtracts exactly its amount from its own project's sum |
| ProjectsSignals.SourceTotalAppend | apps/projects/signals.py:10 | adding a source adds its amount to its own project's sum only |
| ProjectsSignals.SetTotal | apps/projects/signals.py:11 | the update writes total_budget on the rows with that primary key and leaves every other row unchanged |
| ProjectsSignals.RecomputeIdempotent | apps/projects/signals.py:10-11 | running the recomputation twice in a row gives the same table as running it once |
| ProjectsSignals.RecomputeRestoresCache | apps/projects/signals.py:6-11 | if every cached total was right and only one project's sources changed, recomputing that project makes every cached total right again |
| ProjectsSignals.FindSource | apps/projects/signals.py:6 | the saved or deleted source row, found by primary key, or none |
| ProjectsSignals.UpdateProjectTotalBudget | apps/projects/signals.py:6-11 | the hook writes the sum of the project's sources into that project's total_budget and changes no other table |
| ProjectsSignals.SaveSource | apps/projects/signals.py:6-11 | a save updates or inserts the source row, then the hook runs; when the source stays in its project, every project's total_budget equals the sum of its sources afterwards |
| ProjectsSignals.DeleteSource | apps/projects/signals.py:6-11 | a delete removes the row, then the hook runs for its project; every project's total_budget equals the sum of its sources afterwards |
| ProjectsUtils.ProjectsForUser | apps/projects/utils.py:6-16 | none without a profile, all for admin, the department's projects for planner and head, the ones they are responsible for otherwise; no duplicates |
| BudgetUtils.ExpensesForUser | apps/budget/utils.py:6-18 | none without a profile, all for admin, those under a project of the department for planner and head, the user's own otherwise |
| BudgetUtils.DepartmentExpensesBelongToVisibleProjects | apps/budget/utils.py:13-16 | every expense a planner or head sees belongs to a project that get_projects_for_user also shows them |
| ProjectStore.FindProject | apps/projects/views.py:271-295 | get_object_or_404 by primary key: the first row with the id, or none when no row has it |
| ProjectStore.FindActivity | apps/projects/views.py:482-536 | the activity row with the id, or none when no row has it |
| ProjectStore.FindExpense | apps/budget/views.py:86-90 | the expense row with the id, or none when no row has it |
| ProjectStore.ClearReport | apps/budget/models.py:28-35 | SET_NULL: a link to a deleted report becomes null; every other field, and a link to a surviving report, is kept as it was |
| ProjectStore.CascadeDelete | apps/budget/models.py:12-17 | deleting a project removes exactly that project and its own activities, sources and reports; the expenses kept are exactly those of the other activities, each with a link to a deleted report set to null; the attachments kept are exactly those whose expense survives; transfers and delete requests are untouched |
| ProjectStore.CascadeDeleteKeepsOtherProjects | apps/budget/models.py:12-17 | deleting one project leaves every other project's total_allocated as it was |
| ProjectStore.Store.DeleteProject | apps/budget/models.py:123-140 | project.delete() succeeds exactly when no transfer record refers to the project or its activities (PROTECT); on success the cascade is applied, otherwise nothing changes |
| AccountsModels.ParseRole | apps/accounts/models.py:19-24 | a role value is accepted exactly when it is one of staff, planner, head, admin, and maps back to the same key |
| AccountsModels.NewProfile | apps/accounts/models.py:42-62 | a new profile has both notification flags on, budget_threshold 80, no citizen id, no sync time and blank directory and LINE fields |
| AccountsModels.CitizenIdsUniqueFromUsernames | apps/accounts/models.py:49-51 | when usernames are unique and every stored citizen id equals its username, npu_citizen_id is unique as the field requires |
| AccountStore.FindUserByName | apps/accounts/backends.py:31-34 | User.objects.get(username=...): a row with that username, or none when no row has it |
| AccountStore.FindUser | apps/accounts/views.py:180 | get_object_or_404(User, pk=...): a row with that id, or none when no row has it |
| NpuApi.Get | apps/accounts/npu_api.py:87-93 | info.get(key, ''): the stored value when the key is present, '' otherwise |
| NpuApi.ExtractUserData | apps/accounts/npu_api.py:81-95 | None exactly when the response is missing or unsuccessful; otherwise each field comes from its one fixed personnel_info key (or '') and last_npu_sync is the given time |
| NpuApi.MissingInfoGivesEmptyFields | apps/accounts/npu_api.py:84 | a successful response without personnel_info gives '' for every string field |
| NpuApi.OnlyTheSevenKeysMatter | apps/accounts/npu_api.py:86-95 | two responses that agree on the seven keys give the same user data: no other key is read |
| AccountsBackends.RouteFor | apps/accounts/backends.py:26-58 | a local password check is only ever routed to the account whose username was typed |
| AccountsBackends.SyncProfile | apps/accounts/backends.py:112-118 | after a directory login the profile's source is npu_api and the citizen id, staff id, position, employment status, organisation and sync time are the directory's; nothing else changes |
| AccountsBackends.ApplyApproval | apps/accounts/backends.py:121-133 | a rejected account is left as it was; an approved organisation makes it active and approved; a new account from an unlisted organisation becomes pending; an existing one from an unlisted organisation keeps its state |
| AccountsBackends.NpuLogin | apps/accounts/backends.py:60-143 | a directory login fails exactly when the response gives no data or no citizen id, and a failure changes nothing. A success adds a user exactly when none had the citizen id as username. It returns the id of a directory-sourced user with that username |
| AccountsBackends.AuthenticateSpec | apps/accounts/backends.py:26-58 | blank credentials yield None and change nothing; only a directory login changes the user table; a returned id is that of a user in the table |
| AccountsBackends.BlankCredentialsRefused | apps/accounts/backends.py:27-28 | a blank username or password yields None and changes nothing |
| AccountsBackends.SuperuserLocalOnly | apps/accounts/backends.py:37-40 | a superuser logs in exactly when the local password matches, whatever the directory would answer, and nothing changes |
| AccountsBackends.DirectoryUserAlwaysDirectory | apps/accounts/backends.py:43-47 | a non-superuser whose profile source is npu_api always goes to the directory |
| AccountsBackends.LocalUserNoFallback | apps/accounts/backends.py:52-55 | any other account with a usable password and a wrong password gets None, with no directory fallback and no change |
| AccountsBackends.NoCitizenIdNoLogin | apps/accounts/backends.py:72-75 | a directory response without a citizen id yields None and changes nothing |
| AccountsBackends.DirectorySynced | apps/accounts/backends.py:95-136 | the row written for an existing directory account keeps id, username, password, superuser flag and email, takes the directory's names, gets an npu_api profile with the citizen id and department, and is activated and approved only when not rejected and the organisation is approved; otherwise active flag and status are kept |
| AccountsBackends.ExistingLoginRow | apps/accounts/backends.py:84-143 | a directory login of an existing account replaces exactly that row with its DirectorySynced form and returns its id |
| AccountsBackends.ExistingDirectoryUser | apps/accounts/backends.py:60-143 | a directory login of an existing account leaves every other row unchanged, syncs the names and profile, and applies the existing-account approval rule |
| AccountsBackends.UnknownUserGoesToDirectory | apps/accounts/backends.py:26-58 | with both credentials given and no user of that username, authentication is exactly the directory login |
| AccountsBackends.PasswordlessManualGoesToDirectory | apps/accounts/backends.py:26-58 | a non-superuser without a usable password and not sourced from the directory is sent to the directory login |
| AccountsBackends.NewDirectoryUser | apps/accounts/backends.py:84-109 | a new directory user is appended with username = citizen id, an unusable password, a staff profile sourced from npu_api, active only when the organisation is approved and pending otherwise |
| AccountsBackends.RejectedNeverActivated | apps/accounts/backends.py:121-123 | a directory login never changes a rejected account's active flag or approval state |
| AccountsBackends.UnlistedExistingKeepsStatus | apps/accounts/backends.py:129-133 | an existing account from an organisation that is not approved keeps its active flag and approval state |
| AccountsBackends.NpuLoginKeepsUsersWellFormed | apps/accounts/backends.py:84-118 | directory logins keep usernames, user ids and citizen ids unique, and every citizen id equal to its username |
| AccountsBackends.AuthenticateNpu | apps/accounts/backends.py:60-143 | _authenticate_npu on the account store: the user table and the result are exactly the directory-login rule's; no other table changes |
| AccountsBackends.Authenticate | apps/accounts/backends.py:26-58 | authenticate on the account store: the user table and the result are exactly the routing rule's; no other table changes |
| AccountsForms.ConfirmLoginAllowed | apps/accounts/forms.py:26-40 | active users pass; an inactive user is refused with pending_approval or rejected according to the profile's approval state, and with inactive otherwise |
| AccountsForms.RejectedStaysLockedOut | apps/accounts/forms.py:35-39 | a rejected, inactive account is still refused with code rejected after any directory login |
| AccountsForms.CleanCharField | apps/accounts/forms.py:55-66 | a required CharField accepts the stripped value exactly when it is non-empty and within its length bounds |
| AccountsForms.CleanPasswordPair | apps/accounts/forms.py:79-85 | a password pair passes exactly when both fields are valid and equal; a mismatch of two valid fields is refused with its own error; the password has at least 8 characters |
| AccountsForms.CleanUsername | apps/accounts/forms.py:73-77 | an accepted username is not held by any existing user |
| AccountsForms.CreateUser | apps/accounts/forms.py:54-101 | a user is created exactly when the username is free and valid, both names are non-blank and at most 150 characters, the passwords agree, the role is a choice and the department (if any) exists. The user carries the cleaned username, the stripped names and email, and the chosen role and department. It is active and has no citizen id |
| AccountsForms.AppendFreshUserKeepsWellFormed | apps/accounts/forms.py:87-101 | appending a user with a free username and no citizen id keeps usernames unique and citizen ids equal to usernames |
| AccountsForms.CreateUserKeepsUsersWellFormed | apps/accounts/forms.py:87-101 | user creation keeps the account table well formed |
| AccountsForms.EditUser | apps/accounts/forms.py:142-155 | the edit overwrites exactly the name, email, active flag, department, role and LINE id; id, username, password and the other profile fields are kept |
| AccountsForms.CleanOptionalCharField | apps/accounts/forms.py:118-121 | an optional CharField accepts the stripped value exactly when it has at most max_length characters |
| AccountsForms.CleanUserEdit | apps/accounts/forms.py:104-127 | the edit form is valid exactly when both names are non-blank and at most 150 characters, the role is a choice, the department (if any) exists and the LINE id has at most 50 characters; the cleaned values are the stripped inputs |
| AccountsForms.CleanThreshold | apps/accounts/forms.py:196-202 | budget_threshold is accepted exactly when it lies in 50..100 |
| AccountsForms.SaveNotifications | apps/accounts/forms.py:211-217 | the save writes exactly the two flags and the threshold and is refused when the threshold is out of range |
| AccountsGates.RoleRequired | apps/accounts/decorators.py:7-19 | anonymous requests go to login, a user without a profile or with an unlisted role is denied, and otherwise the view's own response is returned |
| AccountsGates.Dispatch | apps/accounts/mixins.py:9-16 | unauthenticated requests get handle_no_permission, a user without a profile or with an unlisted role is denied, and otherwise the parent dispatch's response is returned |
| AccountsGates.DefaultMixinDeniesEveryone | apps/accounts/mixins.py:7 | with the default empty allowed_roles nobody gets through |
| AccountsGates.GatesAgreeOnAuthenticated | apps/accounts/decorators.py:13-17 | for an authenticated user the decorator and the mixin decide alike |
| AccountsAudit.ClientIp | apps/accounts/audit.py:5-9 | the first comma-separated entry of a non-empty X-Forwarded-For, stripped; otherwise REMOTE_ADDR, with empty or missing giving None |
| AccountsAudit.ForwardedIpIsOneEntry | apps/accounts/audit.py:8 | a forwarded client address holds no comma and no surrounding whitespace |
| AccountsAudit.TruncateRepr | apps/accounts/audit.py:28 | target_repr is a prefix of the input of at most 500 characters, the whole input when it is short enough |
| AccountsAudit.MakeEntry | apps/accounts/audit.py:23-32 | the record carries the actor's key (none without one), the action, its listed level or LEVEL_IMPORTANT, the truncated target, the detail, the IP and the target user |
| AccountsAudit.AuditTrail.LogAction | apps/accounts/audit.py:12-34 | log_action appends exactly that record, or leaves the table unchanged when the write fails; it never reports an error |
| AccountsViews.Deactivate | apps/accounts/views.py:276 | the bulk update turns every row off except the spared id and changes nothing else |
| AccountsViews.CreateKeepsOneActive | apps/accounts/views.py:274-277 | creating a year keeps at most one year active, and an active new year is the only active one |
| AccountsViews.EditKeepsOneActive | apps/accounts/views.py:291-294 | with unique ids, editing keeps at most one year active, and an edited active year is the only active one |
| AccountsViews.ToggleKeepsOneActive | apps/accounts/views.py:306-315 | toggling keeps at most one year active; switching a year on makes it the only active one |
| AccountsViews.FiscalYearDeleteKeepsRefs | apps/accounts/views.py:322-329 | a fiscal year is deleted only when no project refers to it, so no project is left pointing at a missing year |
| AccountsViews.DepartmentDeleteEffect | apps/accounts/views.py:238-247 | a department is removed only when it has no members and no projects, and then exactly that row goes; a refused delete changes nothing |
| AccountsViews.ToggleActiveTwice | apps/accounts/views.py:181-185 | the toggle succeeds exactly for an existing user other than the acting admin, and toggling twice restores the table |
| AccountsViews.PendingUserActionGate | apps/accounts/views.py:437-453 | after approve the user passes the login gate; after reject the gate refuses with code rejected |
| AccountsViews.PasswordResetMakesLocal | apps/accounts/views.py:124-138 | after an admin reset the account's next login is routed to the local password check, because an npu_api source becomes manual |
| AccountsViews.FiscalYearCreateSpec | apps/accounts/views.py:270-282 | a year is added exactly when its year is not taken; the new row comes last; when the new year is active every other row has its active flag switched off, otherwise every other row is unchanged; a refused create changes nothing |
| AccountsViews.FiscalYearEditSpec | apps/accounts/views.py:286-299 | NotFound exactly when no row has the id; the edit happens exactly when the year is free; it rewrites exactly that row with the data and keeps its id. Every other row stays, except that an active edited year switches off the other rows' active flag |
| AccountsViews.FiscalYearToggleSpec | apps/accounts/views.py:303-316 | the toggle happens exactly when the year exists and flips that row's active flag. Switching a year off leaves every other row; switching it on switches every other row off |
| AccountsViews.FiscalYearDeleteSpec | apps/accounts/views.py:320-331 | the delete happens exactly when the year exists and no project refers to it; it removes exactly that row, keeping the others in order; otherwise nothing changes |
| AccountsViews.DepartmentDeleteSpec | apps/accounts/views.py:236-249 | the delete happens exactly when the department exists and has no members and no projects; it removes one row and keeps the rest |
| AccountsViews.DepartmentDeleteKeepsRefs | apps/accounts/views.py:236-249 | when every user and project refers to an existing department, that stays true after a delete |
| AccountsViews.ToggleActiveSpec | apps/accounts/views.py:177-194 | the toggle happens exactly for an existing user other than the actor and flips only that user's active flag; toggling oneself is refused; otherwise nothing changes |
| AccountsViews.PendingUserActionSpec | apps/accounts/views.py:421-462 | the action happens exactly for an existing user with a profile and action approve or reject; the target row changes only in is_active (true exactly for approve) and its profile's approval status (approved or rejected), and no other row changes |
| AccountsViews.PasswordResetSpec | apps/accounts/views.py:124-148 | the reset happens exactly for an existing user with a valid password pair; that user gets the new hash and a manual profile source, and no other row changes |
| AccountsViews.ResetPassword | apps/accounts/views.py:127-138 | the reset user has the new password, keeps id, username and active flag, and an existing profile becomes manually sourced |
| AccountsViews.UserEditSpec | apps/accounts/views.py:150-164 | NotFound exactly when no user has the id; the edit happens exactly when the form is valid; it rewrites only that user, as EditUser writes the cleaned form: id and username kept, names, email, is_active, role, department and LINE id from the form |
| AccountsViews.FiscalYearCreate | apps/accounts/views.py:270-282 | the view on the store: the year table and the outcome are those of the create rule; no other table changes |
| AccountsViews.FiscalYearEdit | apps/accounts/views.py:286-299 | the view on the store: the year table and the outcome are those of the edit rule; no other table changes |
| AccountsViews.FiscalYearToggle | apps/accounts/views.py:303-316 | the view on the store: the year table and the outcome are those of the toggle rule; no other table changes |
| AccountsViews.FiscalYearDelete | apps/accounts/views.py:320-331 | the view on the store: refused while a project refers to the year; no other table changes |
| AccountsViews.DepartmentDelete | apps/accounts/views.py:236-249 | the view on the store: refused while the department has members or projects; no other table changes |
| AccountsViews.UserToggleActive | apps/accounts/views.py:177-194 | the view on the store: the user table and the outcome are those of the toggle rule |
| AccountsViews.PendingUserAction | apps/accounts/views.py:421-462 | the view on the store: the user table and the outcome are those of the approve/reject rule |
| AccountsViews.PasswordReset | apps/accounts/views.py:124-148 | the view on the store: the new password hash is stored and an npu_api source becomes manual |
| AccountsViews.UserEdit | apps/accounts/views.py:150-164 | the view on the store: the user table and the outcome are those of the edit specification |
| BudgetUtils.ProjectById | apps/budget/utils.py:13-16 | the project of the given id, or none when no row has it |
| BudgetViews.RoleOrStaff | apps/budget/views.py:168 | the profile's role, and staff for a user without a profile |
| BudgetViews.InVisibleProjectIsListed | apps/budget/views.py:164-166 | the visibility check holds exactly when the expense's project is in get_projects_for_user's list |
| BudgetViews.RemoveAt | apps/budget/views.py:185 | deleting row k keeps the rows before it and shifts the rest down by one |
| BudgetViews.ActivitySpentRemove | apps/budget/views.py:185 | deleting an expense takes exactly its approved amount off its activity's total_spent |
| BudgetViews.CheckEdit | apps/budget/views.py:86-90 | editing is allowed exactly for a pending expense of the user's own; a decided one is refused first, as not editable |
| BudgetViews.FieldsValidMeans | apps/budget/forms.py:20-36 | the edit form's fields are valid exactly for an existing activity, a stripped description of 1 to 500 characters (models.py:18), and an amount above 0 that fits max_digits=12, decimal_places=2 (models.py:19) |
| BudgetViews.EditSpecAsWritten | apps/budget/views.py:82-114 | as written: NotFound for an unknown expense; then NotEditable for a decided row, Denied for another user's row, Invalid unless the fields are valid and the amount fits the remaining budget plus the row's own pending amount, else Done. Only Done changes anything: it replaces that row by its edited version |
| BudgetViews.EditSpec | apps/budget/views.py:82-114 | corrected: the same cascade, but the amount must fit the allocation less approved spending, with no add-back. A valid edit into an activity of a project the user does not see is Denied. Done happens exactly when all checks pass and replaces only that row |
| BudgetViews.EditKeepsScope | apps/budget/views.py:48-50 | after an accepted edit the expense's activity is in a project the user sees |
| BudgetViews.EditKeepsSpending | apps/budget/views.py:92-95 | editing a pending expense changes no activity's total_spent |
| BudgetViews.EditAsWrittenLeavesScope | apps/budget/views.py:92-114 | as written, a staff user can move their pending expense into an activity of a project they do not see; the corrected edit refuses it |
| BudgetViews.FindPendingExpense | apps/budget/views.py:210 | get_object_or_404(Expense, pk=id, status='pending'): a pending row with that id, or none when no row with that id is pending |
| BudgetViews.Decide | apps/budget/views.py:219-225 | the decision keeps the expense's id, activity, amount and creator and stamps status, approver, time and remark; a decided status keeps the stamps consistent |
| BudgetViews.MayApprove | apps/budget/views.py:208 | the gate passes exactly for head and admin |
| BudgetViews.ApproveSpec | apps/budget/views.py:208-225 | a decision is made exactly for head or admin, on a pending expense they can see, with action approved or rejected; otherwise nothing changes; a decision touches only the expense table and keeps its length |
| BudgetViews.ApproveDecidesOnce | apps/budget/views.py:210 | with unique ids, a decided expense cannot be decided again by anyone |
| BudgetViews.ApproveNeedsPending | apps/budget/views.py:210 | an id with no pending row is never decided |
| BudgetViews.NoPendingAfterDecide | apps/budget/views.py:210-221 | with unique ids, once the row is decided no pending row with that id remains |
| BudgetViews.ApproveDoneShape | apps/budget/views.py:219-225 | an accepted decision rewrites the one pending row with the chosen, non-pending status and stamps, and changes no other row |
| BudgetViews.ApproveKeepsStamps | apps/budget/models.py:43-51 | approver and time are set exactly on decided rows, before and after a decision |
| BudgetViews.ApproveSpending | apps/budget/views.py:220-225 | an approval adds the amount to its activity's total_spent; a rejection leaves spending unchanged |
| BudgetViews.DeletePermitted | apps/budget/views.py:168-179 | a decided expense may be deleted by an admin only; a pending one by its creator, a head or an admin; staff only their own pending ones |
| BudgetViews.DeleteSpec | apps/budget/views.py:157-185 | NotFound exactly when no expense has the id; the delete happens exactly when the expense is in a visible project and the user may delete it; it then removes exactly that row and touches only expenses and attachments; a refusal changes nothing |
| BudgetViews.DeleteEffect | apps/budget/views.py:163-185 | after a delete no attachment refers to the expense, every other attachment stays, and spending drops by what the row had approved |
| BudgetViews.FindReportOf | apps/budget/views.py:144 | get_object_or_404(ActivityReport, pk=id, activity=...): a report with that id of that activity, or none |
| BudgetViews.LinkSpec | apps/budget/views.py:129-151 | the link is written exactly when the expense exists in a visible project and the report, if one is named, belongs to the expense's activity; only that expense's report link changes; a refusal changes nothing |
| BudgetViews.LinkKeepsReportLinks | apps/budget/views.py:141-151 | linking keeps every expense tied only to reports of its own activity; an empty id unlinks |
| BudgetViews.LinkKeepsSpending | apps/budget/views.py:151 | linking writes only the report link, so no activity's total_spent changes |
| BudgetViews.FindAttachment | apps/budget/views.py:324 | the attachment row with that id, or none |
| BudgetViews.AttachmentDeleteSpec | apps/budget/views.py:318-336 | NotFound exactly when there is no such attachment or its expense is missing; Done exactly when its expense is in a project the user sees and the user uploaded it or is an admin; otherwise Denied. Done removes only that attachment row, and a refusal changes nothing |
| BudgetViews.AttachmentDeleteEffect | apps/budget/views.py:324-336 | an attachment is removed only by its uploader or an admin, and exactly that row goes |
| BudgetViews.ExpenseEdit | apps/budget/views.py:82-114 | the view on the store: the tables and the outcome are those of the corrected edit rule |
| BudgetViews.ExpenseApprove | apps/budget/views.py:208-225 | the view on the store: the tables and the outcome are those of the decision rule |
| BudgetViews.ExpenseDelete | apps/budget/views.py:157-185 | the view on the store: the tables and the outcome are those of the delete rule |
| BudgetViews.ExpenseLinkReport | apps/budget/views.py:129-151 | the view on the store: the tables and the outcome are those of the link rule |
| BudgetViews.ExpenseAttachmentDelete | apps/budget/views.py:318-336 | the view on the store: the tables and the outcome are those of the attachment-delete rule |
| ProjectsViews.TransferActivities | apps/projects/views.py:499-509 | from's budget_<type> drops by the amount and to's rises by it (with from == to the row ends at original + amount); every other field and every other row is untouched |
| ProjectsViews.TransferConservesPair | apps/projects/views.py:503-509 | between two distinct activities the sum of their budget_<type> fields is unchanged |
| ProjectsViews.SelfTransferAddsAmount | apps/projects/views.py:499-509 | a transfer from an activity to itself leaves it at its original value plus the amount, because both rows are read before either is written |
| ProjectsViews.TypeTotalUpdate | apps/projects/views.py:503-509 | replacing one activity changes a project's budget_<type> total by exactly that row's change |
| ProjectsViews.TransferKeepsTypeTotals | apps/projects/views.py:503-509 | between two activities of one project, a transfer keeps every budget_<type> total of every project |
| ProjectsViews.TransferRecord | apps/projects/views.py:512-520 | the record carries exactly the project, both activities, the type, the amount, the reason, the actor and the time |
| ProjectsViews.TransferBudget | apps/projects/views.py:482-536 | for a visible project and two existing activities, the activity table becomes the transfer's and exactly one record is appended; otherwise nothing changes; no balance, from ≠ to or same-project check is made |
| ProjectsViews.ApplyStatusChoice | apps/projects/views.py:153-160 | a status is applied exactly when it is a STATUS_CHOICES key, and only the status field changes |
| ProjectsViews.ProjectStatusChange | apps/projects/views.py:143-169 | for a visible project and a valid status, only that project's status changes; otherwise nothing changes |
| ProjectsViews.ActivityNumbers | apps/projects/views.py:207-209 | the listed numbers are exactly the activity numbers in use within the project |
| ProjectsViews.NextActivityNumber | apps/projects/views.py:207-210 | the next activity number is above every number in use in the project; it is 1 for the project's first activity and otherwise one more than a number in use (max + 1) |
| ProjectsViews.NewActivityKeepsNumbersUnique | apps/projects/models.py:139 | numbering a new activity max + 1 keeps (project, activity_number) unique |
| ProjectsViews.ActivityCreate | apps/projects/views.py:194-212 | for a visible project the new activity is appended with the next number, and (project, activity_number) stays unique; otherwise nothing changes |
| ProjectsViews.ReportRounds | apps/projects/views.py:366-368 | the listed rounds are exactly the rounds in use for the activity |
| ProjectsViews.NextRound | apps/projects/views.py:366-369 | the next round is above every round the activity has; it is 1 for the first report and otherwise one more than a round in use (max + 1) |
| ProjectsViews.NewReportKeepsRoundsUnique | apps/projects/views.py:366-369 | numbering a new report max + 1 gives each of an activity's reports its own round |
| ProjectsViews.ActivityReportCreate | apps/projects/views.py:353-370 | the report is created exactly when the activity exists, its project exists and the user sees that project. It is appended with the next round, and rounds stay unique. Otherwise nothing changes |
| ProjectsViews.CascadeKeepsApproved | apps/projects/views.py:295 | deleting a project keeps every approved request's project absent |
| ProjectsViews.AdminDeleteAsWritten | apps/projects/views.py:271-295 | as written, the self-approved request is recorded whether or not project.delete() then succeeds |
| ProjectsViews.AdminDelete | apps/projects/views.py:271-295 | the direct delete succeeds exactly when no transfer protects the project, and a refusal changes nothing. On success the tables are the cascade delete of the project after the self-approved request is appended. So the project, its activities, sources, reports, expenses and their attachments go, links to the deleted reports are cleared, and every other row stays |
| ProjectsViews.AdminDeleteKeepsConsistent | apps/projects/views.py:271-295 | the direct delete keeps the workflow invariant: approved requests name deleted projects and at most one request per project is pending |
| ProjectsViews.AdminDeleteAsWrittenBreaksConsistency | apps/projects/views.py:278-295 | as written, a direct delete refused by a transfer record leaves an approved request beside its project |
| ProjectsViews.PendingRequestKeepsConsistent | apps/projects/views.py:309-318 | filing a request when none is pending keeps the workflow invariant |
| ProjectsViews.DeleteRequestSpec | apps/projects/views.py:264-318 | ProjectNotFound for an unknown project; NotVisible exactly when the user does not see it; BlankReason exactly for a visible project and a blank reason. With a non-blank reason an admin gets exactly AdminDelete, and anyone else gets AlreadyPending exactly when a request is pending; otherwise RequestCreated, which appends the stripped reason's pending record. Nothing else changes anything |
| ProjectsViews.DeleteRequestSpecKeepsConsistent | apps/projects/views.py:264-318 | a blank reason changes nothing, and every path of the request view keeps the workflow invariant |
| ProjectsViews.ProjectDeleteRequest | apps/projects/views.py:264-318 | the view on the store: the tables and the outcome are those of the request rule |
| ProjectsViews.FindPendingRequest | apps/projects/views.py:436 | get_object_or_404(ProjectDeleteRequest, pk=id, status='pending'): a pending request with that id, or none |
| ProjectsViews.ApproveAsWritten | apps/projects/views.py:446-461 | as written, the request is saved approved before the delete, which may then be refused |
| ProjectsViews.Approve | apps/projects/views.py:446-461 | approval is refused exactly when a transfer protects the project, and a refusal changes nothing. On success the request is stamped approved with the admin, the time and the remark, and the tables are the cascade delete of that project, so its dependants go and every other row stays |
| ProjectsViews.ParseReviewAction | apps/projects/views.py:439-444 | only approve and reject are accepted |
| ProjectsViews.ReviewSpec | apps/projects/views.py:436-472 | only a pending request is reviewed, and an unknown request or a missing action changes nothing. Approve gives exactly Approve on that request, hence the stamped cascade delete. Reject happens exactly for a pending request with action reject: the request is stamped rejected with the admin, the time and the remark, and every other table is kept |
| ProjectsViews.ReviewKeepsConsistent | apps/projects/views.py:436-472 | a review keeps the workflow invariant |
| ProjectsViews.ApproveAsWrittenBreaksConsistency | apps/projects/views.py:450-461 | as written, approving a request whose project a transfer protects leaves an approved request beside that project |
| ProjectsViews.ApproveRequest | apps/projects/views.py:450-461 | the approve branch on the store follows the corrected approval rule |
| ProjectsViews.RejectRequest | apps/projects/views.py:463-465 | the reject branch stamps the request rejected with the reviewing admin, time and remark; the project stays |
| ProjectsViews.DeleteRequestReview | apps/projects/views.py:434-478 | the view on the store: the tables and the outcome are those of the review rule, with the remark stripped |
| DeadlineAlerts.EntryFor | apps/notifications/services.py:201-226 | the log entry the service writes for an alert is one that _already_sent_today finds for the same person, day and target |
| DeadlineAlerts.Step | apps/notifications/management/commands/send_deadline_alerts.py:44-68 | each considered (person, alert) pair adds exactly one to one counter. skipped_no_line counts exactly when there is no profile, no LINE id or notify_deadline is off. sent counts exactly when the pair is not skipped and it is either a dry run or a service call that returns, whatever it returns. errors counts exactly when the service raises. The log changes exactly on a real send that returns, and then gains exactly the entry for that alert with the returned flag |
| DeadlineAlerts.RunOnlyAppends | apps/notifications/management/commands/send_deadline_alerts.py:39-135 | taking the alerts in order only ever appends to the log, at most one entry per alert |
| DeadlineAlerts.PersonAlerts | apps/notifications/management/commands/send_deadline_alerts.py:44 | one alert per notify person, in order, all with the same kind and target |
| DeadlineAlerts.RunCountsEveryAlert | apps/notifications/management/commands/send_deadline_alerts.py:39-135 | the four counters together grow by exactly the number of considered pairs |
| DeadlineAlerts.DryRunKeepsLog | apps/notifications/management/commands/send_deadline_alerts.py:57-61 | a dry run writes no log entry and counts no error |
| DeadlineAlerts.NotSentMeansNoClash | apps/notifications/management/commands/send_deadline_alerts.py:145-156 | when _already_sent_today finds no entry, no entry of the log is one it could not tell apart from the entry the alert would write |
| DeadlineAlerts.StepKeepsClashFree | apps/notifications/management/commands/send_deadline_alerts.py:53-55 | one step never writes a second entry for the same person, day and target |
| DeadlineAlerts.RunKeepsClashFree | apps/notifications/management/commands/send_deadline_alerts.py:53-55 | a whole run never sends the same person the same deadline notification twice on one day |
| DeadlineAlerts.RunSnoc | apps/notifications/management/commands/send_deadline_alerts.py:39-135 | running one more alert is one more step at the end |
| DeadlineAlerts.RunAppend | apps/notifications/management/commands/send_deadline_alerts.py:39-135 | running two lists of alerts one after the other is running their concatenation |
| DeadlineAlerts.ActivityAlertsFire | apps/notifications/management/commands/send_deadline_alerts.py:34-98 | every activity alert is for a candidate activity (status not_started, pending or in_progress) and one of its notify persons |
| DeadlineAlerts.ProjectAlertsFire | apps/notifications/management/commands/send_deadline_alerts.py:102-135 | every project alert is for a candidate project (status draft, active or not_started) and one of its notify persons |
| DeadlineAlerts.AllAlerts | apps/notifications/management/commands/send_deadline_alerts.py:34-135 | an alert about an activity comes from the activity loop and one about a project from the project loop; project alerts are always deadline alerts |
| DeadlineAlerts.PersonAlertsSnoc | apps/notifications/management/commands/send_deadline_alerts.py:44 | the alerts of the first j + 1 persons are those of the first j plus one for person j |
| DeadlineAlerts.ActivityAlertsSnoc | apps/notifications/management/commands/send_deadline_alerts.py:39 | the alerts of the first i + 1 activities are those of the first i plus those of activity i |
| DeadlineAlerts.ProjectAlertsSnoc | apps/notifications/management/commands/send_deadline_alerts.py:107 | the alerts of the first m + 1 projects are those of the first m plus those of project m |
| DeadlineAlerts.ConsiderPerson | apps/notifications/management/commands/send_deadline_alerts.py:44-68 | the loop body computes exactly one step |
| DeadlineAlerts.NotifyAll | apps/notifications/management/commands/send_deadline_alerts.py:44-68 | the inner loop over notify persons computes exactly the run of their alerts |
| DeadlineAlerts.AlertActivity | apps/notifications/management/commands/send_deadline_alerts.py:40-98 | one activity's deadline alerts (7 or 3 days left) and then its start reminder (start passed, not_started or pending) |
| DeadlineAlerts.AlertProject | apps/notifications/management/commands/send_deadline_alerts.py:108-135 | one project's deadline alerts when 7 or 3 days are left |
| DeadlineAlerts.ActivityPass | apps/notifications/management/commands/send_deadline_alerts.py:39-98 | the activity loop computes exactly the run of all activity alerts in order |
| DeadlineAlerts.ProjectPass | apps/notifications/management/commands/send_deadline_alerts.py:107-135 | the project loop computes exactly the run of all project alerts in order |
| DeadlineAlerts.Handle | apps/notifications/management/commands/send_deadline_alerts.py:22-143 | handle's counters and log are exactly the run, from zero counters, of the activity alerts and then the project alerts |
| Dashboard.UsageOverFullIffOverspent | apps/dashboard/views.py:31-70 | usage is above 100 exactly when the remaining budget shown is negative, and exactly 100 when it is zero |
| Dashboard.Take | apps/dashboard/views.py:63 | a slice [:n]: the first min(n, length) rows |
| Dashboard.UpcomingMatches | apps/dashboard/views.py:43-62 | exactly the activities that are open, end within 7 days and lie in the role's scope |
| Dashboard.VisiblePending | apps/dashboard/views.py:35-36 | exactly the expenses that are pending and visible to the user |
| Dashboard.ActiveVisibleProjects | apps/dashboard/views.py:21-22 | exactly the projects the user sees whose status is active |
| Dashboard.Index | apps/dashboard/views.py:14-79 | a context exactly when the user has a profile; it carries the profile's role, the number and summed total_budget of the visible projects, and the approved total of the visible expenses |
| Dashboard.IndexFacts | apps/dashboard/views.py:14-79 | no context without a profile; remaining = total − spent; the active count is the number of visible active projects; usage is UsagePercent(spent, total), so 0 without a positive total; the pending count is the number of visible pending expenses for head and admin and 0 otherwise; the upcoming list holds min(5, matches) activities, each open, ending within 7 days and in the user's scope |
| Dashboard.ApprovedTotalIgnoresPending | apps/dashboard/views.py:29 | a pending expense adds nothing to the spent total |
| Dashboard.BucketsPartition | apps/dashboard/views.py:89-98 | overdue, ending soon, active and pending are disjoint and together hold exactly the user's pending or in_progress activities |
| Dashboard.MyActivities | apps/dashboard/views.py:88-92 | exactly the open activities the user is responsible for or notified about |
| Dashboard.Bucket | apps/dashboard/views.py:94-98 | each bucket holds exactly the listed activities of its date window and, for the later two, its status |
| Dashboard.MyPendingExpenses | apps/dashboard/views.py:101-103 | exactly the user's own pending expenses |
| Dashboard.PendingForApproval | apps/dashboard/views.py:106-111 | None unless head or admin; then the first min(15, n) of the n visible pending expenses |
| AccountsViews.FindDepartment | apps/accounts/views.py:237 | get_object_or_404 on departments: the index of a row with that id, or none exactly when no row has it |
| AccountsViews.FindFiscalYear | apps/accounts/views.py:287 | get_object_or_404 on fiscal years: the index of a row with that id, or none exactly when no row has it |

## Left out

- The HTTP POSTs to LINE and the message formatting in apps/notifications/services.py are not part of this model. The service is an oracle: each call returns (with the flag it returns) or raises. A call that returns writes one deadline log entry (services.py:201-226 and 263-287), because `_already_sent_today` reads that log.
- `NPUApiClient.authenticate_user` (apps/accounts/npu_api.py:25-70) is a network call. It is the parameter `response` of `AccountsBackends.AuthenticateNpu`: an optional directory reply.
- apps/budget/signals.py has no observable behaviour, because its threshold branch is `pass`.
- Locking and transactions are left out: `transaction.atomic` and `select_for_update` in the transfer and delete-request views. Each view is one atomic step over the in-memory tables.
- Floating point is left out. Budget usage is an exact `real`, and the `int(percent)` progress-bar width is not modelled.
- Timestamps (`timezone.now`) are parameters. The day of a log entry is the day the command runs for.
- Rendering, flash messages, redirects and the template context beyond the values stated above are left out.
- Deleting the uploaded file from storage (apps/budget/views.py:335) is left out. Only the attachment row is removed.
- Email-format validation is left out.
- Password hashing (`make_password`, `set_unusable_password`) and `check_password` are oracles passed as parameters.
- Audit-log persistence is an oracle: whether the write fails is a parameter, and `log_action` swallows that failure. The level table `ACTION_LEVELS` and its default `LEVEL_IMPORTANT` are parameters, because `AuditLog` is not part of this model.
- The default `approval_status` of a new profile is the parameter `defaultApproval`, because that field's declaration is not in the models.
- Views that are not core are not modelled:
  - the approved-organisation CRUD views;
  - `user_list`, `audit_log`, `manage_dashboard` and `my_profile`;
  - the `user_create` view wrapper, since creating a user is modelled by `AccountsForms.CreateUser`.
- The role gates on each view (`@role_required`, `RoleRequiredMixin`) are modelled once, in `AccountsGates`. The view methods do not re-check them.
- `BudgetTransferForm` is not part of this model. `ProjectsViews.TransferBudget` checks neither balances, nor from ≠ to, nor that both activities are in the project, because the shown view does none of these.
- `ProjectBudgetSource`, `ProjectDeleteRequest` and `ActivityReport` are modelled from their use sites only. In particular, delete requests are kept when their project is deleted, because that foreign key's `on_delete` is not shown.
- The status enums include `not_started`, which the alert command uses although `STATUS_CHOICES` lacks it. `ProjectsModels.ParseProjectStatusChoice` still accepts only the listed choices.
- Lookups by primary key return the first row with that id. The tables keep ids unique, as the database does.
- A notify person who is missing from the users table is treated like a person without a profile.
- Dashboard.MyPendingExpenses: the newest-first order and the `[:10]` slice are left out. The contract states which expenses are listed.
- Dashboard.PendingForApproval: the newest-first order is left out. The model keeps the first 15 in table order.
- Dashboard.IndexFacts: `recent_expenses` (newest five) and the first ten active projects are left out, because they depend only on ordering.
- Dashboard.IndexFacts: the upcoming list is the first five matches in table order. The source takes them in Activity's Meta ordering (`project`, `activity_number`, apps/projects/models.py:140); which five are shown is not stated.
- ProjectsViews.TransferActivities: a transfer writes budget_<type> on the two activities and leaves allocated_budget as it was. This is an assumption: the Activity class in apps/projects/models.py declares neither the budget_<type> fields that apps/projects/forms.py and the transfer view write nor a save override, so whether a save recomputes allocated_budget is not shown. After such a transfer the premise of ProjectsForms.AcceptedSourceModeKeepsCap (allocated_budget equals the source-mode total) no longer holds.
- The `max_length=13` of `npu_citizen_id` is not modelled, because directory logins, the only writers of that field, take the value from the directory's response.
- AccountsForms.CreateUser: `User.objects.create_user` normalises the email (lower-cased domain) and the username (Unicode NFKC). The model stores the stripped email and the stripped username as given, because the model has no case folding or Unicode normalisation.
- AccountsBackends.AuthenticateSpec: only the first of the two authentication backends (config/settings/base.py:98-101) is modelled. When it returns None, Django's ModelBackend would also try the local password; the model stops at the first backend.
- The views write no audit entries (`USER_ROLE_CHANGE`, `USER_PASSWORD_RESET` and the rest). `log_action` itself is modelled once, in `AccountsAudit`.
- ProjectsSignals.SaveSource: the cache guarantee covers the project the source belongs to after the save. When a save moves a source to another project, the old project's total is not recomputed, as in the source.

## Findings

| source | as written | input that shows it | evidently intended | confidence | as-written member | corrected member |
|---|---|---|---|---|---|---|
| apps/budget/forms.py:40-51 | when a pending expense is edited, its old amount is added back to the remaining budget, yet pending expenses were never subtracted from it | an activity with allocation 100 and no approved expenses, and a pending expense of 100 edited to 200: remaining 100 + 100 = 200 accepts it, although creating the same expense would be rejected | the add-back applies only to an amount that was counted, so an edit is held to the same cap as a create | not executed | BudgetForms.ExpenseCleanAsWritten, BudgetForms.AddBackOverspendExample | BudgetForms.ExpenseClean, BudgetForms.AcceptedEditFitsAllocation |
| apps/projects/views.py:278-295 | an admin's direct delete saves a request already approved before `project.delete()`, and that delete can fail with ProtectedError when a budget transfer references the project or its activities | an admin deletes a project that has one transfer record: the approved request is stored while the project survives | the request is recorded only when the delete succeeds | not executed | ProjectsViews.AdminDeleteAsWritten, ProjectsViews.AdminDeleteAsWrittenBreaksConsistency | ProjectsViews.AdminDelete, ProjectsViews.AdminDeleteKeepsConsistent |
| apps/projects/views.py:446-461 | approving a delete request saves it as approved before `project.delete()`, which can fail in the same way | an admin approves the pending request of a project that has one transfer record: the request is approved while the project survives | the request is marked approved only when the delete succeeds | not executed | ProjectsViews.ApproveAsWritten, ProjectsViews.ApproveAsWrittenBreaksConsistency | ProjectsViews.Approve, ProjectsViews.ReviewKeepsConsistent |
| apps/budget/views.py:92-114 | expense_edit validates the posted activity against every activity, and narrows the choices to visible projects only for display, unlike expense_create (48-50) | a staff user edits their own pending expense and posts the id of an activity in a project they cannot see: the edit is saved and the expense leaves their visibility | an edit may choose only activities of visible projects, as a create may | not executed | BudgetViews.EditSpecAsWritten, BudgetViews.EditAsWrittenLeavesScope | BudgetViews.EditSpec, BudgetViews.EditKeepsScope |

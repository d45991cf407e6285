/**
 * The project and activity forms: which per-source budget fields an activity
 * form shows, the allocation caps, the date order, the document upload check
 * and the responsible-person requirement.
 */
module ProjectsForms {
  import opened Wrappers
  import opened Ids
  import opened Money
  import opened BudgetModels
  import P = ProjectsModels

  datatype FormError =
    | StartAfterEnd
    | AllocationNotPositive
    | ExceedsProjectBudget(available: Satang)
    | NoSourceBudget
    | NoResponsiblePerson
    | NotPdfContentType
    | DocumentTooLarge
    | NotPdfContent

  // ---------------------------------------------------------------- field selection

  datatype ActivityField =
    | NameField | DescriptionField | AllocatedBudgetField | SourceBudgetField(budgetType: BudgetType)
    | StartDateField | EndDateField | StatusField | ResponsibleField | NotifyField

  /** ActivityForm.Meta.fields. */
  function DeclaredFields(): set<ActivityField>
  {
    {NameField, DescriptionField, AllocatedBudgetField,
     SourceBudgetField(Government), SourceBudgetField(Accumulated), SourceBudgetField(Revenue),
     StartDateField, EndDateField, StatusField, ResponsibleField, NotifyField}
  }

  /** project.budget_sources.all(), or no sources when the form has no project. */
  function ProjectSources(project: Option<P.Project>, sources: seq<P.BudgetSource>): (r: seq<P.BudgetSource>)
    ensures forall s :: s in r <==> project.Some? && s in sources && s.project == project.value.id
  {
    if project.None? || sources == [] then []
    else if sources[0].project == project.value.id then [sources[0]] + ProjectSources(project, sources[1..])
    else ProjectSources(project, sources[1..])
  }

  /** The source types the project has. */
  function ActiveSourceTypes(project: Option<P.Project>, sources: seq<P.BudgetSource>): set<BudgetType>
  {
    set s | s in ProjectSources(project, sources) :: s.sourceType
  }

  /**
   * ActivityForm.__init__: with budget sources, drop allocated_budget and the
   * per-source fields of the types the project lacks; without, drop all three
   * per-source fields. Every other declared field stays.
   */
  method ActivityFormFields(project: Option<P.Project>, sources: seq<P.BudgetSource>) returns (fields: set<ActivityField>)
    ensures AllocatedBudgetField in fields <==> ProjectSources(project, sources) == []
    ensures forall t :: SourceBudgetField(t) in fields <==> t in ActiveSourceTypes(project, sources)
    ensures forall f :: f in DeclaredFields() && !f.SourceBudgetField? && f != AllocatedBudgetField ==> f in fields
    ensures fields <= DeclaredFields()
  {
    var projectSources := ProjectSources(project, sources);
    fields := DeclaredFields();
    if projectSources != [] {
      fields := fields - {AllocatedBudgetField};
      var active := set s | s in projectSources :: s.sourceType;
      for k := 0 to |AllBudgetTypes|
        invariant AllocatedBudgetField !in fields
        invariant forall j :: 0 <= j < k ==> (SourceBudgetField(AllBudgetTypes[j]) in fields <==> AllBudgetTypes[j] in active)
        invariant forall j :: k <= j < |AllBudgetTypes| ==> SourceBudgetField(AllBudgetTypes[j]) in fields
        invariant forall f :: f in DeclaredFields() && !f.SourceBudgetField? && f != AllocatedBudgetField ==> f in fields
        invariant fields <= DeclaredFields()
      {
        var st := AllBudgetTypes[k];
        if st !in active {
          fields := fields - {SourceBudgetField(st)};
        }
      }
      forall t ensures SourceBudgetField(t) in fields <==> t in active {
        assert t == AllBudgetTypes[0] || t == AllBudgetTypes[1] || t == AllBudgetTypes[2];
      }
    } else {
      for k := 0 to |AllBudgetTypes|
        invariant AllocatedBudgetField in fields
        invariant forall j :: 0 <= j < k ==> SourceBudgetField(AllBudgetTypes[j]) !in fields
        invariant forall f :: f in DeclaredFields() && !f.SourceBudgetField? ==> f in fields
        invariant fields <= DeclaredFields()
      {
        fields := fields - {SourceBudgetField(AllBudgetTypes[k])};
      }
      forall t ensures SourceBudgetField(t) !in fields {
        assert t == AllBudgetTypes[0] || t == AllBudgetTypes[1] || t == AllBudgetTypes[2];
      }
    }
  }

  // ---------------------------------------------------------------- allocation caps

  /**
   * The project's allocation excluding this activity's stored allocation:
   * total_allocated, minus the instance's allocated_budget when the form edits
   * a saved activity.
   */
  function OtherAllocated(project: P.Project, acts: seq<P.Activity>, instance: Option<P.Activity>): Satang
  {
    P.TotalAllocated(acts, project.id) - (if instance.Some? then instance.value.allocatedBudget else 0)
  }

  /** The cap shared by both modes: the new figure on top of the other allocations stays within total_budget. */
  function CheckCap(project: Option<P.Project>, acts: seq<P.Activity>, instance: Option<P.Activity>, amount: Satang)
    : (r: Result<Satang, FormError>)
    ensures r.Ok? <==> project.None? || OtherAllocated(project.value, acts, instance) + amount <= project.value.totalBudget
    ensures r.Ok? ==> r.value == amount
    ensures r.Err? ==> r.error == ExceedsProjectBudget(project.value.totalBudget - OtherAllocated(project.value, acts, instance))
  {
    if project.Some? && OtherAllocated(project.value, acts, instance) + amount > project.value.totalBudget then
      Err(ExceedsProjectBudget(project.value.totalBudget - OtherAllocated(project.value, acts, instance)))
    else
      Ok(amount)
  }

  /** ActivityForm.clean_allocated_budget (legacy mode): positive, and within the project's cap. */
  function CleanAllocatedBudget(amount: Satang, project: Option<P.Project>, acts: seq<P.Activity>, instance: Option<P.Activity>)
    : (r: Result<Satang, FormError>)
    ensures amount <= 0 ==> r == Err(AllocationNotPositive)
    ensures r.Ok? <==> amount > 0 && (project.None? || OtherAllocated(project.value, acts, instance) + amount <= project.value.totalBudget)
    ensures r.Ok? ==> r.value == amount
  {
    if amount <= 0 then Err(AllocationNotPositive) else CheckCap(project, acts, instance, amount)
  }

  /**
   * After an accepted edit of the saved activity at index i (its row then
   * carries the new allocation), the project's total allocation stays within
   * its total budget.
   */
  lemma AcceptedEditKeepsCap(amount: Satang, project: P.Project, acts: seq<P.Activity>, i: nat)
    requires i < |acts| && acts[i].project == project.id
    requires CleanAllocatedBudget(amount, Some(project), acts, Some(acts[i])).Ok?
    ensures P.TotalAllocated(acts[i := acts[i].(allocatedBudget := amount)], project.id) <= project.totalBudget
  {
    P.TotalAllocatedUpdate(acts, i, acts[i].(allocatedBudget := amount), project.id);
  }

  /** After an accepted new activity is added, the project's total allocation stays within its total budget. */
  lemma AcceptedNewActivityKeepsCap(a: P.Activity, project: P.Project, acts: seq<P.Activity>)
    requires a.project == project.id
    requires CleanAllocatedBudget(a.allocatedBudget, Some(project), acts, None).Ok?
    ensures P.TotalAllocated(acts + [a], project.id) <= project.totalBudget
  {
    P.TotalAllocatedAppend(acts, a, project.id);
  }

  /** The submitted per-source budgets; None for a field that is absent or empty. */
  datatype BudgetInputs = BudgetInputs(government: Option<Satang>, accumulated: Option<Satang>, revenue: Option<Satang>)

  /** cleaned_data.get(f'budget_{t}') or 0. */
  function InputOr0(inputs: BudgetInputs, t: BudgetType): Satang
  {
    var v := match t
      case Government => inputs.government
      case Accumulated => inputs.accumulated
      case Revenue => inputs.revenue;
    if v.Some? then v.value else 0
  }

  /** The source-mode total: one term per project source, in order. */
  function SourceModeTotal(projectSources: seq<P.BudgetSource>, inputs: BudgetInputs): Satang
  {
    if projectSources == [] then 0
    else SourceModeTotal(projectSources[..|projectSources| - 1], inputs) + InputOr0(inputs, P.Last(projectSources).sourceType)
  }

  /** The input of a type that no project source has does not enter the total. */
  lemma {:induction false} SourceModeTotalIgnoresAbsentTypes(projectSources: seq<P.BudgetSource>, inputs: BudgetInputs,
                                                             inputs': BudgetInputs)
    requires forall s :: s in projectSources ==> InputOr0(inputs, s.sourceType) == InputOr0(inputs', s.sourceType)
    ensures SourceModeTotal(projectSources, inputs) == SourceModeTotal(projectSources, inputs')
  {
    if projectSources != [] {
      var n := |projectSources|;
      assert forall s :: s in projectSources[..n - 1] ==> s in projectSources;
      SourceModeTotalIgnoresAbsentTypes(projectSources[..n - 1], inputs, inputs');
      assert P.Last(projectSources) in projectSources;
    }
  }

  /** Both forms' date rule: a start date after the end date is refused when both are given. */
  function CleanDates(start: Option<Date>, end: Option<Date>): (r: Result<(), FormError>)
    ensures r.Err? <==> start.Some? && end.Some? && start.value > end.value
    ensures r.Err? ==> r.error == StartAfterEnd
  {
    if start.Some? && end.Some? && start.value > end.value then Err(StartAfterEnd) else Ok(())
  }

  /**
   * ActivityForm.clean: the date rule first; then, in source mode, a positive
   * total within the project's cap. In legacy mode only the dates are checked
   * here (the allocation has its own field check).
   */
  function CleanActivity(start: Option<Date>, end: Option<Date>, project: Option<P.Project>, sources: seq<P.BudgetSource>,
                         inputs: BudgetInputs, acts: seq<P.Activity>, instance: Option<P.Activity>)
    : (r: Result<(), FormError>)
    ensures CleanDates(start, end).Err? ==> r == Err(StartAfterEnd)
    ensures ProjectSources(project, sources) == [] ==> r == CleanDates(start, end)
    ensures r.Ok? <==>
      CleanDates(start, end).Ok?
      && (ProjectSources(project, sources) != [] ==>
            var total := SourceModeTotal(ProjectSources(project, sources), inputs);
            total > 0 && OtherAllocated(project.value, acts, instance) + total <= project.value.totalBudget)
  {
    if start.Some? && end.Some? && start.value > end.value then
      Err(StartAfterEnd)
    else
      var projectSources := ProjectSources(project, sources);
      if projectSources != [] then
        var total := SourceModeTotal(projectSources, inputs);
        if total <= 0 then Err(NoSourceBudget)
        else
          match CheckCap(project, acts, instance, total)
          case Ok(_) => Ok(())
          case Err(e) => Err(e)
      else
        Ok(())
  }

  /**
   * An accepted source-mode activity whose row then carries the total as its
   * allocated_budget keeps the project's total allocation within its total budget.
   */
  lemma AcceptedSourceModeKeepsCap(start: Option<Date>, end: Option<Date>, project: P.Project, sources: seq<P.BudgetSource>,
                                   inputs: BudgetInputs, acts: seq<P.Activity>, a: P.Activity)
    requires ProjectSources(Some(project), sources) != [] && a.project == project.id
    requires CleanActivity(start, end, Some(project), sources, inputs, acts, None).Ok?
    requires a.allocatedBudget == SourceModeTotal(ProjectSources(Some(project), sources), inputs)
    ensures P.TotalAllocated(acts + [a], project.id) <= project.totalBudget
  {
    P.TotalAllocatedAppend(acts, a, project.id);
  }

  // ---------------------------------------------------------------- project form

  /** 20 MB. */
  const MaxDocumentSize: nat := 20 * 1024 * 1024

  /** The bytes of "%PDF". */
  const PdfMagic: seq<bv8> := [0x25, 0x50, 0x44, 0x46]

  /**
   * The document field's value: nothing, a file already stored (no
   * content_type), or a fresh upload.
   */
  datatype Document = NoDocument | StoredDocument(name: string) | Upload(contentType: string, content: seq<bv8>)

  /** doc.read(4): the first four bytes, or fewer when the file is shorter. */
  function ReadFour(content: seq<bv8>): (r: seq<bv8>)
    ensures |r| == if |content| < 4 then |content| else 4
    ensures r == content[..|r|]
  {
    if |content| < 4 then content else content[..4]
  }

  /**
   * ProjectForm.clean_document: an upload must declare application/pdf, be at
   * most 20 MB and begin with %PDF, checked in that order; anything else
   * passes through unchanged.
   */
  function CleanDocument(doc: Document): (r: Result<Document, FormError>)
    ensures r.Ok? ==> r.value == doc
    ensures !doc.Upload? ==> r.Ok?
    ensures doc.Upload? ==>
      (r.Ok? <==> doc.contentType == "application/pdf" && |doc.content| <= MaxDocumentSize
                  && |doc.content| >= 4 && doc.content[..4] == PdfMagic)
    ensures doc.Upload? && doc.contentType != "application/pdf" ==> r == Err(NotPdfContentType)
    ensures doc.Upload? && doc.contentType == "application/pdf" && |doc.content| > MaxDocumentSize ==> r == Err(DocumentTooLarge)
  {
    match doc
    case Upload(contentType, content) =>
      if contentType != "application/pdf" then Err(NotPdfContentType)
      else if |content| > MaxDocumentSize then Err(DocumentTooLarge)
      else if ReadFour(content) != PdfMagic then Err(NotPdfContent)
      else Ok(doc)
    case _ => Ok(doc)
  }

  /** clean_responsible_persons, on both forms: at least one person. */
  function CleanResponsiblePersons(persons: set<UserId>): (r: Result<set<UserId>, FormError>)
    ensures r.Ok? <==> persons != {}
    ensures r.Ok? ==> r.value == persons
    ensures r.Err? ==> r.error == NoResponsiblePerson
  {
    if persons == {} then Err(NoResponsiblePerson) else Ok(persons)
  }
}

/** Drafts of the guided multi-step setup. */
module GuidedSetup {
  import opened Options
  import opened Text
  import FlowTemplate

  datatype Mode = Existing | New

  /** A draft step; a field left out reads as the empty string. */
  datatype Step = Step(mode: Mode, selectedQueueId: string, newQueuePrefix: string, deskNumber: string, stepRole: string, callingPolicy: string)

  datatype PrefixError = Required | UsedInSetup | UsedInBranch

  datatype Fault =
    | NoDesk | DeskTaken
    | NoQueue | QueueTaken
    | NoPrefix | PrefixTaken | PrefixRefused(error: PrefixError)
    | FifoPickup

  datatype Verdict = Accepted | TooFewSteps | FirstNotService | AtStep(index: nat, fault: Fault)

  function Normalized(prefix: string): string {
    Upper(Trim(prefix))
  }

  /** A queue of the branch already has the prefix. */
  predicate InBranch(prefix: string, branchQueues: seq<string>) {
    exists i :: 0 <= i < |branchQueues| && Upper(branchQueues[i]) == prefix
  }

  /** validateGuidedSingleQueuePrefix. */
  function ValidateSinglePrefix(prefix: string, branchQueues: seq<string>, inDraft: set<string>): Option<PrefixError> {
    var normalized := Normalized(prefix);
    if normalized == "" then Some(Required)
    else if normalized in inDraft then Some(UsedInSetup)
    else if InBranch(normalized, branchQueues) then Some(UsedInBranch)
    else None
  }

  function DeskOf(step: Step): string {
    Trim(step.deskNumber)
  }

  function PrefixOf(step: Step): string {
    Normalized(step.newQueuePrefix)
  }

  /** A prefix is refused when blank, when taken in the draft, or when a queue of the branch has it, in whatever case. */
  lemma PrefixRefusals(prefix: string, branchQueues: seq<string>, inDraft: set<string>)
    ensures var wanted, refusal := Upper(Trim(prefix)), ValidateSinglePrefix(prefix, branchQueues, inDraft);
      && (refusal == Some(Required) <==> Trim(prefix) == "")
      && (refusal == Some(UsedInSetup) <==> Trim(prefix) != "" && wanted in inDraft)
      && (refusal == Some(UsedInBranch) <==>
            Trim(prefix) != "" && wanted !in inDraft && exists q :: q in branchQueues && Upper(q) == wanted)
  {
    hide Trim;
    assert Upper(Trim(prefix)) == "" <==> Trim(prefix) == "";
    if q :| q in branchQueues && Upper(q) == Upper(Trim(prefix)) {
      var i :| 0 <= i < |branchQueues| && branchQueues[i] == q;
    }
  }

  /** In a draft that is accepted no new queue takes a prefix of the branch, in whatever case. */
  lemma AcceptedPrefixIsNew(steps: seq<Step>, branchQueues: seq<string>, i: nat, q: string)
    requires ValidDraft(steps, branchQueues) && i < |steps| && steps[i].mode.New? && q in branchQueues
    ensures Upper(q) != Upper(Trim(steps[i].newQueuePrefix)) && Trim(steps[i].newQueuePrefix) != ""
  {
    hide Trim;
    assert StepComplete(steps[i], branchQueues);
    var k :| 0 <= k < |branchQueues| && branchQueues[k] == q;
  }

  // ----- What a draft must satisfy, said of the draft as a whole -----

  predicate DesksDistinct(steps: seq<Step>) {
    forall i, j :: 0 <= i < j < |steps| ==> DeskOf(steps[i]) != DeskOf(steps[j])
  }

  predicate QueuesDistinct(steps: seq<Step>) {
    forall i, j :: 0 <= i < j < |steps| && steps[i].mode.Existing? && steps[j].mode.Existing? ==>
      steps[i].selectedQueueId != steps[j].selectedQueueId
  }

  predicate PrefixesDistinct(steps: seq<Step>) {
    forall i, j :: 0 <= i < j < |steps| && steps[i].mode.New? && steps[j].mode.New? ==>
      PrefixOf(steps[i]) != PrefixOf(steps[j])
  }

  predicate StepComplete(step: Step, branchQueues: seq<string>) {
    && step.deskNumber != ""
    && (step.mode.Existing? ==> step.selectedQueueId != "")
    && (step.mode.New? ==> PrefixOf(step) != "" && !InBranch(PrefixOf(step), branchQueues))
    && !(step.stepRole == "pickup" && step.callingPolicy == "fifo")
  }

  predicate ValidDraft(steps: seq<Step>, branchQueues: seq<string>) {
    && |steps| >= 2 && steps[0].stepRole == "service"
    && DesksDistinct(steps) && QueuesDistinct(steps) && PrefixesDistinct(steps)
    && forall i :: 0 <= i < |steps| ==> StepComplete(steps[i], branchQueues)
  }

  // ----- What the steps before a given one have taken -----

  predicate DeskClash(steps: seq<Step>, i: nat)
    requires i < |steps|
  {
    exists j :: 0 <= j < i && DeskOf(steps[j]) == DeskOf(steps[i])
  }

  predicate QueueClash(steps: seq<Step>, i: nat)
    requires i < |steps|
  {
    exists j :: 0 <= j < i && steps[j].mode.Existing? && steps[j].selectedQueueId == steps[i].selectedQueueId
  }

  predicate PrefixClash(steps: seq<Step>, i: nat)
    requires i < |steps|
  {
    exists j :: 0 <= j < i && steps[j].mode.New? && PrefixOf(steps[j]) == PrefixOf(steps[i])
  }

  function QueueFault(steps: seq<Step>, branchQueues: seq<string>, i: nat): Option<Fault>
    requires i < |steps|
  {
    if steps[i].mode.Existing? then
      if steps[i].selectedQueueId == "" then Some(NoQueue) else if QueueClash(steps, i) then Some(QueueTaken) else None
    else if PrefixOf(steps[i]) == "" then Some(NoPrefix)
    else if PrefixClash(steps, i) then Some(PrefixTaken)
    else if InBranch(PrefixOf(steps[i]), branchQueues) then Some(PrefixRefused(UsedInBranch))
    else None
  }

  /** The first thing wrong with step `i`, given the steps before it. */
  function FaultOf(steps: seq<Step>, branchQueues: seq<string>, i: nat): Option<Fault>
    requires i < |steps|
  {
    if steps[i].deskNumber == "" then Some(NoDesk)
    else if DeskClash(steps, i) then Some(DeskTaken)
    else if QueueFault(steps, branchQueues, i).Some? then QueueFault(steps, branchQueues, i)
    else if steps[i].stepRole == "pickup" && steps[i].callingPolicy == "fifo" then Some(FifoPickup)
    else None
  }

  function DesksBefore(steps: seq<Step>, i: nat): set<string>
    requires i <= |steps|
  {
    set j | 0 <= j < i :: DeskOf(steps[j])
  }

  function QueuesBefore(steps: seq<Step>, i: nat): set<string>
    requires i <= |steps|
  {
    set j | 0 <= j < i && steps[j].mode.Existing? :: steps[j].selectedQueueId
  }

  function PrefixesBefore(steps: seq<Step>, i: nat): set<string>
    requires i <= |steps|
  {
    set j | 0 <= j < i && steps[j].mode.New? :: PrefixOf(steps[j])
  }

  lemma NothingTaken(steps: seq<Step>)
    ensures DesksBefore(steps, 0) == {} && QueuesBefore(steps, 0) == {} && PrefixesBefore(steps, 0) == {}
  {
  }

  lemma SetsGrow(steps: seq<Step>, i: nat)
    requires i < |steps|
    ensures DesksBefore(steps, i + 1) == DesksBefore(steps, i) + {DeskOf(steps[i])}
    ensures QueuesBefore(steps, i + 1) == QueuesBefore(steps, i) + if steps[i].mode.Existing? then {steps[i].selectedQueueId} else {}
    ensures PrefixesBefore(steps, i + 1) == PrefixesBefore(steps, i) + if steps[i].mode.New? then {PrefixOf(steps[i])} else {}
    ensures DeskOf(steps[i]) in DesksBefore(steps, i) <==> DeskClash(steps, i)
    ensures steps[i].selectedQueueId in QueuesBefore(steps, i) <==> QueueClash(steps, i)
    ensures PrefixOf(steps[i]) in PrefixesBefore(steps, i) <==> PrefixClash(steps, i)
  {
    hide DeskOf, PrefixOf;
  }

  /** validateGuidedMultiSteps: the verdict names the lowest step with a fault, and its first fault. */
  method ValidateGuidedMultiSteps(steps: seq<Step>, branchQueues: seq<string>) returns (verdict: Verdict)
    ensures verdict == Accepted <==> ValidDraft(steps, branchQueues)
    ensures verdict == TooFewSteps <==> |steps| < 2
    ensures verdict == FirstNotService <==> |steps| >= 2 && steps[0].stepRole != "service"
    ensures verdict.AtStep? ==>
      && verdict.index < |steps|
      && FaultOf(steps, branchQueues, verdict.index) == Some(verdict.fault)
      && forall k :: 0 <= k < verdict.index ==> FaultOf(steps, branchQueues, k) == None
  {
    hide FaultOf, ValidDraft, DesksBefore, QueuesBefore, PrefixesBefore;
    ValidMeansFaultless(steps, branchQueues);
    if |steps| < 2 {
      return TooFewSteps;
    }
    if steps[0].stepRole != "service" {
      return FirstNotService;
    }
    var queueIds: set<string>, newPrefixes: set<string>, deskNumbers: set<string> := {}, {}, {};
    NothingTaken(steps);
    for i := 0 to |steps|
      invariant deskNumbers == DesksBefore(steps, i)
      invariant queueIds == QueuesBefore(steps, i)
      invariant newPrefixes == PrefixesBefore(steps, i)
      invariant forall k :: 0 <= k < i ==> FaultOf(steps, branchQueues, k) == None
    {
      var fault;
      fault, queueIds, newPrefixes, deskNumbers := CheckStep(steps, branchQueues, i, queueIds, newPrefixes, deskNumbers);
      if fault.Some? {
        return AtStep(i, fault.value);
      }
    }
    return Accepted;
  }

  /** The body of the loop: the checks of one step, and the three sets grown by it. */
  method CheckStep(steps: seq<Step>, branchQueues: seq<string>, i: nat, queueIds: set<string>, newPrefixes: set<string>, deskNumbers: set<string>)
    returns (fault: Option<Fault>, queueIds': set<string>, newPrefixes': set<string>, deskNumbers': set<string>)
    requires i < |steps|
    requires deskNumbers == DesksBefore(steps, i)
    requires queueIds == QueuesBefore(steps, i)
    requires newPrefixes == PrefixesBefore(steps, i)
    ensures fault == FaultOf(steps, branchQueues, i)
    ensures fault.None? ==>
      && deskNumbers' == DesksBefore(steps, i + 1)
      && queueIds' == QueuesBefore(steps, i + 1)
      && newPrefixes' == PrefixesBefore(steps, i + 1)
  {
    hide Trim, Upper, InBranch, DesksBefore, QueuesBefore, PrefixesBefore, DeskClash, QueueClash, PrefixClash;
    SetsGrow(steps, i);
    queueIds', newPrefixes', deskNumbers' := queueIds, newPrefixes, deskNumbers;
    var step := steps[i];
    if step.deskNumber == "" {
      return Some(NoDesk), queueIds', newPrefixes', deskNumbers';
    }
    var desk := Trim(step.deskNumber);
    if desk in deskNumbers {
      return Some(DeskTaken), queueIds', newPrefixes', deskNumbers';
    }
    deskNumbers' := deskNumbers + {desk};
    if step.mode.Existing? {
      if step.selectedQueueId == "" {
        return Some(NoQueue), queueIds', newPrefixes', deskNumbers';
      }
      if step.selectedQueueId in queueIds {
        return Some(QueueTaken), queueIds', newPrefixes', deskNumbers';
      }
      queueIds' := queueIds + {step.selectedQueueId};
    } else {
      var prefix := Upper(Trim(step.newQueuePrefix));
      if prefix == "" {
        return Some(NoPrefix), queueIds', newPrefixes', deskNumbers';
      }
      if prefix in newPrefixes {
        return Some(PrefixTaken), queueIds', newPrefixes', deskNumbers';
      }
      UpperTrimIdempotent(step.newQueuePrefix);
      var branchPrefixError := ValidateSinglePrefix(prefix, branchQueues, newPrefixes);
      if branchPrefixError.Some? {
        return Some(PrefixRefused(branchPrefixError.value)), queueIds', newPrefixes', deskNumbers';
      }
      newPrefixes' := newPrefixes + {prefix};
    }
    if step.stepRole == "pickup" && step.callingPolicy == "fifo" {
      return Some(FifoPickup), queueIds', newPrefixes', deskNumbers';
    }
    return None, queueIds', newPrefixes', deskNumbers';
  }

  lemma StepFaultless(steps: seq<Step>, branchQueues: seq<string>, i: nat)
    requires i < |steps|
    ensures FaultOf(steps, branchQueues, i) == None <==>
      && StepComplete(steps[i], branchQueues) && !DeskClash(steps, i)
      && (steps[i].mode.Existing? ==> !QueueClash(steps, i)) && (steps[i].mode.New? ==> !PrefixClash(steps, i))
  {
    hide DeskClash, QueueClash, PrefixClash, InBranch, Trim, Upper;
  }

  /** The whole-draft predicate holds exactly when no step has a fault of its own. */
  lemma ValidMeansFaultless(steps: seq<Step>, branchQueues: seq<string>)
    ensures ValidDraft(steps, branchQueues) <==>
      && |steps| >= 2 && steps[0].stepRole == "service"
      && forall i :: 0 <= i < |steps| ==> FaultOf(steps, branchQueues, i) == None
  {
    hide FaultOf, StepComplete, DeskOf, PrefixOf;
    forall i | 0 <= i < |steps|
      ensures FaultOf(steps, branchQueues, i) == None <==>
        && StepComplete(steps[i], branchQueues) && !DeskClash(steps, i)
        && (steps[i].mode.Existing? ==> !QueueClash(steps, i)) && (steps[i].mode.New? ==> !PrefixClash(steps, i))
    {
      StepFaultless(steps, branchQueues, i);
    }
    ClashesAreDuplicates(steps);
  }

  lemma ClashesAreDuplicates(steps: seq<Step>)
    ensures DesksDistinct(steps) <==> forall i :: 0 <= i < |steps| ==> !DeskClash(steps, i)
    ensures QueuesDistinct(steps) <==> forall i :: 0 <= i < |steps| && steps[i].mode.Existing? ==> !QueueClash(steps, i)
    ensures PrefixesDistinct(steps) <==> forall i :: 0 <= i < |steps| && steps[i].mode.New? ==> !PrefixClash(steps, i)
  {
    hide DeskOf, PrefixOf;
    if i, j :| 0 <= i < j < |steps| && DeskOf(steps[i]) == DeskOf(steps[j]) {
      assert DeskClash(steps, j);
    }
    if i, j :| 0 <= i < j < |steps| && steps[i].mode.New? && steps[j].mode.New? && PrefixOf(steps[i]) == PrefixOf(steps[j]) {
      assert PrefixClash(steps, j);
    }
    if i, j :| 0 <= i < j < |steps| && steps[i].mode.Existing? && steps[j].mode.Existing? && steps[i].selectedQueueId == steps[j].selectedQueueId {
      assert QueueClash(steps, j);
    }
  }

  // ----- From an accepted draft to a flow template -----

  /** The template the draft describes: steps numbered from one, and a created queue's id for every new queue. */
  function ToTemplate(steps: seq<Step>, created: seq<string>): seq<FlowTemplate.FlowStep>
    requires |created| == |steps|
  {
    seq(|steps|, i requires 0 <= i < |steps| =>
      FlowTemplate.FlowStep(i + 1, steps[i].deskNumber, if steps[i].mode.Existing? then steps[i].selectedQueueId else created[i]))
  }

  /** The ids created for the new queues differ from each other and from the queues selected. */
  predicate FreshIds(steps: seq<Step>, created: seq<string>) {
    && |created| == |steps|
    && (forall i, j :: 0 <= i < j < |steps| && steps[i].mode.New? && steps[j].mode.New? ==> created[i] != created[j])
    && (forall i, j :: 0 <= i < |steps| && 0 <= j < |steps| && steps[i].mode.New? && steps[j].mode.Existing? ==>
          created[i] != steps[j].selectedQueueId)
  }

  predicate RawDesksDistinct(steps: seq<Step>) {
    forall i, j :: 0 <= i < j < |steps| ==> steps[i].deskNumber != steps[j].deskNumber
  }

  /** Of all that a draft must satisfy, the cross-step rules of its template see the queues and the untrimmed desks. */
  lemma TemplateAcceptsIff(steps: seq<Step>, created: seq<string>)
    requires FreshIds(steps, created)
    ensures FlowTemplate.ExpectedIssues(ToTemplate(steps, created)) == [] <==> QueuesDistinct(steps) && RawDesksDistinct(steps)
  {
    var t := ToTemplate(steps, created);
    FlowTemplate.OneToAt(|steps|);
    assert FlowTemplate.Indices(t) == FlowTemplate.OneTo(|steps|);
    TemplateDesks(steps, created);
    TemplateQueues(steps, created);
  }

  lemma TemplateDesks(steps: seq<Step>, created: seq<string>)
    requires |created| == |steps|
    ensures FlowTemplate.Distinct(FlowTemplate.Desks(ToTemplate(steps, created))) <==> RawDesksDistinct(steps)
  {
    var desks := FlowTemplate.Desks(ToTemplate(steps, created));
    assert |desks| == |steps| && forall i :: 0 <= i < |steps| ==> desks[i] == steps[i].deskNumber;
  }

  lemma TemplateQueues(steps: seq<Step>, created: seq<string>)
    requires FreshIds(steps, created)
    ensures FlowTemplate.Distinct(FlowTemplate.Queues(ToTemplate(steps, created))) <==> QueuesDistinct(steps)
  {
    var queues := FlowTemplate.Queues(ToTemplate(steps, created));
    assert |queues| == |steps|;
    assert forall i :: 0 <= i < |steps| ==> queues[i] == if steps[i].mode.Existing? then steps[i].selectedQueueId else created[i];
  }

  /** Every accepted draft passes the cross-step rules of the template it becomes. */
  lemma AcceptedDraftBecomesTemplate(steps: seq<Step>, branchQueues: seq<string>, created: seq<string>)
    requires ValidDraft(steps, branchQueues) && FreshIds(steps, created)
    ensures FlowTemplate.ExpectedIssues(ToTemplate(steps, created)) == []
  {
    hide StepComplete, InBranch, FreshIds;
    forall i, j | 0 <= i < j < |steps| ensures steps[i].deskNumber != steps[j].deskNumber {
      assert DeskOf(steps[i]) != DeskOf(steps[j]);
    }
    TemplateAcceptsIff(steps, created);
  }

  /** The converse fails: two existing queues at desks that differ by a trailing space are refused only as a draft. */
  lemma TemplateRulesAreLaxer(draft: Step, first: string, second: string, created: seq<string>)
    requires draft.mode.Existing? && first != second && |created| == 2
    ensures var steps := [draft.(selectedQueueId := first), draft.(deskNumber := draft.deskNumber + " ", selectedQueueId := second)];
      !DesksDistinct(steps) && FlowTemplate.ExpectedIssues(ToTemplate(steps, created)) == []
  {
    var steps := [draft.(selectedQueueId := first), draft.(deskNumber := draft.deskNumber + " ", selectedQueueId := second)];
    TrimIgnoresAddedSpace(draft.deskNumber);
    assert DeskOf(steps[0]) == DeskOf(steps[1]);
    assert |steps[0].deskNumber| != |steps[1].deskNumber|;
    TemplateAcceptsIff(steps, created);
  }
}

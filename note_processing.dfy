/** The note-processing node of the agent
    (packages/workflows/hcc_extractor/v0/agent/nodes/note/processing.py): it
    settles the assessment plan and the condition blocks of the note in the
    agent state, asking the language model only when no plan was loaded. The
    model's answer is an input here. */
module NoteProcessing {
  import opened Text
  import opened NoteLoader

  /** The `ProgressNote` dictionary of the agent state, which the node
      updates in place. */
  class ProgressNote {
    var rawContent: string
    var assessmentPlan: string
    var conditionBlocks: seq<string>

    constructor (rawContent: string, assessmentPlan: string, conditionBlocks: seq<string>)
      ensures this.rawContent == rawContent && this.assessmentPlan == assessmentPlan
      ensures this.conditionBlocks == conditionBlocks
    {
      this.rawContent := rawContent;
      this.assessmentPlan := assessmentPlan;
      this.conditionBlocks := conditionBlocks;
    }
  }

  /** The `ProcessedNote` the language model answers with. */
  datatype ProcessedNote = ProcessedNote(hasAssessmentPlan: bool, assessmentPlanContent: string, conditionBlocks: seq<string>)

  /** The plan and blocks the node settles on, given the loaded plan and the
      answer the model would give if asked. */
  datatype Settled = Settled(assessmentPlan: string, conditionBlocks: seq<string>)

  function Processed(loaded: string, answer: ProcessedNote): Settled {
    var called := loaded == "";
    var plan := if called then answer.assessmentPlanContent else loaded;
    var has := if called then answer.hasAssessmentPlan else true;
    if has && plan != "" then
      var found := ConditionBlocks(plan);
      var blocks := if found == [] && called then answer.conditionBlocks else found;
      Settled(plan, if blocks == [] then [plan] else blocks)
    else Settled(plan, [])
  }

  /** `note_processor`: the same note object comes back, with only its plan
      and blocks replaced. */
  method NoteProcessor(note: ProgressNote, answer: ProcessedNote) returns (result: ProgressNote)
    modifies note
    ensures result == note
    ensures note.rawContent == old(note.rawContent)
    ensures Settled(note.assessmentPlan, note.conditionBlocks) == Processed(old(note.assessmentPlan), answer)
  {
    var assessmentPlan := note.assessmentPlan;
    var hasAssessmentPlan: bool;
    var called := false;
    if assessmentPlan != "" {
      hasAssessmentPlan := true;
    } else {
      called := true;
      assessmentPlan := answer.assessmentPlanContent;
      hasAssessmentPlan := answer.hasAssessmentPlan;
    }
    var conditionBlocks: seq<string>;
    if hasAssessmentPlan && assessmentPlan != "" {
      conditionBlocks := ConditionBlocks(assessmentPlan);
      if conditionBlocks == [] && called {
        conditionBlocks := answer.conditionBlocks;
      }
      if conditionBlocks == [] {
        conditionBlocks := [assessmentPlan];
      }
    } else {
      conditionBlocks := [];
    }
    note.assessmentPlan := assessmentPlan;
    note.conditionBlocks := conditionBlocks;
    result := note;
  }

  /** A loaded plan is kept, counts as present and the model is not asked:
      its answer makes no difference. */
  lemma LoadedPlanNeedsNoModel(loaded: string, a1: ProcessedNote, a2: ProcessedNote)
    requires loaded != ""
    ensures Processed(loaded, a1) == Processed(loaded, a2)
    ensures Processed(loaded, a1).assessmentPlan == loaded
    ensures Processed(loaded, a1).conditionBlocks != []
  {
  }

  /** The fallback chain: a plan that is present always yields blocks; the
      splitter's blocks when it finds any, else the model's blocks if the
      model was asked and gave some, else the whole plan as one block. A
      missing plan (flag false or content empty) yields no blocks. */
  lemma BlockFallbackChain(loaded: string, answer: ProcessedNote)
    ensures var r := Processed(loaded, answer);
      var has := loaded != "" || answer.hasAssessmentPlan;
      (has && r.assessmentPlan != "" ==> r.conditionBlocks != []) &&
      (has && r.assessmentPlan != "" && ConditionBlocks(r.assessmentPlan) != [] ==>
         r.conditionBlocks == ConditionBlocks(r.assessmentPlan)) &&
      (has && r.assessmentPlan != "" && ConditionBlocks(r.assessmentPlan) == [] && loaded != "" ==>
         r.conditionBlocks == [r.assessmentPlan]) &&
      (has && r.assessmentPlan != "" && ConditionBlocks(r.assessmentPlan) == [] && loaded == "" ==>
         r.conditionBlocks == if answer.conditionBlocks != [] then answer.conditionBlocks else [r.assessmentPlan]) &&
      (!(has && r.assessmentPlan != "") ==> r.conditionBlocks == [])
  {
  }

  /** The blocks the splitter contributes are clean: non-empty and stripped. */
  lemma SplitterBlocksClean(loaded: string, answer: ProcessedNote)
    requires loaded != "" && ConditionBlocks(loaded) != []
    ensures forall b :: b in Processed(loaded, answer).conditionBlocks ==> b != [] && Strip(b) == b
  {
    ConditionBlocksClean(loaded);
  }
}

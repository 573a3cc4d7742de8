/** The records that flow between the pipeline's nodes
    (packages/workflows/hcc_extractor/v0/agent/schemas/states.py). */
module Records {

  /** `Condition`: an extracted condition before HCC validation. */
  datatype Condition = Condition(code: string, name: string, data: string)

  /** `ValidatedCondition`: a condition with its HCC flag. */
  datatype ValidatedCondition = ValidatedCondition(code: string, name: string, isHcc: bool, data: string)
}

/**
 * The task record a graph node carries and the fixed linear formula that turns
 * it into an edge weight (`calculateWeight` in alf.js). Numbers are exact
 * reals: the formula is a handful of decimal multiplications and additions.
 */
module CostModel {
  import opened JsText

  const TimeWeight: real := 0.4
  const PainWeight: real := 0.3
  const ComplexityWeight: real := 0.2
  const HumanInLoopWeight: real := 0.1
  const SuccessWeight: real := 0.5

  const DefaultTime: real := 4.0
  const DefaultPain: real := 4.0
  const DefaultComplexity: real := 4.0
  const DefaultHumanInLoop: real := 1.0
  const DefaultSuccess: real := 0.9

  /**
   * The fields of a task object that the engine reads. A field the object does
   * not have is None. `manualHuman` is `potential_solutions.manual_human`;
   * `scales` holds any other numeric field set by a rating.
   */
  datatype TaskData = TaskData(
    title: Option<string>,
    timeEstimate: Option<real>,
    painLevel: Option<real>,
    complexity: Option<real>,
    humanInLoopRefined: Option<real>,
    successProbability: Option<real>,
    manualHuman: Option<TaskData>,
    scales: map<string, real>)

  /** An object with none of the fields, such as `{}` or `{x, y}`. */
  const NoFields: TaskData :=
    TaskData(None, None, None, None, None, None, None, map[])

  function Titled(title: string): TaskData {
    NoFields.(title := Some(title))
  }

  /** A field read with a default for a number: an absent value or 0 is falsy and gives the default. */
  function OrDefault(v: Option<real>, d: real): real {
    if v.Some? && v.value != 0.0 then v.value else d
  }

  /** `v ?? d`: only an absent value gives the default. */
  function NullishDefault(v: Option<real>, d: real): real {
    if v.Some? then v.value else d
  }

  /** Every present field lies on its intended scale: estimates non-negative, a probability in [0, 1]. */
  predicate OnScale(d: TaskData) {
    && (d.timeEstimate.Some? ==> d.timeEstimate.value >= 0.0)
    && (d.painLevel.Some? ==> d.painLevel.value >= 0.0)
    && (d.complexity.Some? ==> d.complexity.value >= 0.0)
    && (d.humanInLoopRefined.Some? ==> d.humanInLoopRefined.value >= 0.0)
    && (d.successProbability.Some? ==> 0.0 <= d.successProbability.value <= 1.0)
  }

  /** Edge weight of a task: time, pain, complexity and human effort add cost, likely success removes it. */
  function CalculateWeight(d: TaskData): (w: real)
    ensures OnScale(d) ==> w > 0.0
  {
    var time := OrDefault(d.timeEstimate, DefaultTime);
    var pain := OrDefault(d.painLevel, DefaultPain);
    var complexity := OrDefault(d.complexity, DefaultComplexity);
    var humanLoop := OrDefault(d.humanInLoopRefined, DefaultHumanInLoop);
    var successProb := NullishDefault(d.successProbability, DefaultSuccess);
    TimeWeight * time + PainWeight * pain + ComplexityWeight * complexity
      + HumanInLoopWeight * humanLoop + SuccessWeight * (1.0 - successProb)
  }

  /** `calculateWeight({})` is 0.4*4 + 0.3*4 + 0.2*4 + 0.1*1 + 0.5*(1 - 0.9). */
  lemma WeightOfEmptyTask()
    ensures CalculateWeight(NoFields) == 3.75
  {
  }

  /** A zero estimate is falsy: it weighs exactly like an absent one, which weighs like the default. */
  lemma ZeroEstimatesFallBack(d: TaskData)
    ensures CalculateWeight(d.(timeEstimate := Some(0.0))) == CalculateWeight(d.(timeEstimate := None))
      == CalculateWeight(d.(timeEstimate := Some(DefaultTime)))
    ensures CalculateWeight(d.(painLevel := Some(0.0))) == CalculateWeight(d.(painLevel := None))
      == CalculateWeight(d.(painLevel := Some(DefaultPain)))
    ensures CalculateWeight(d.(complexity := Some(0.0))) == CalculateWeight(d.(complexity := None))
      == CalculateWeight(d.(complexity := Some(DefaultComplexity)))
    ensures CalculateWeight(d.(humanInLoopRefined := Some(0.0))) == CalculateWeight(d.(humanInLoopRefined := None))
      == CalculateWeight(d.(humanInLoopRefined := Some(DefaultHumanInLoop)))
  {
  }

  /** A success probability of 0 is kept (`??`), so it costs 0.45 more than leaving it out. */
  lemma ZeroSuccessIsKept(d: TaskData)
    ensures CalculateWeight(d.(successProbability := Some(0.0)))
      == CalculateWeight(d.(successProbability := None)) + 0.45
  {
  }

  /** Only the five cost fields matter: title, solutions and other scales do not change the weight. */
  lemma WeightReadsOnlyCostFields(d: TaskData, e: TaskData)
    requires d.timeEstimate == e.timeEstimate && d.painLevel == e.painLevel
    requires d.complexity == e.complexity && d.humanInLoopRefined == e.humanInLoopRefined
    requires d.successProbability == e.successProbability
    ensures CalculateWeight(d) == CalculateWeight(e)
  {
  }

  /** Setting the numeric field named by a rating to `v`. */
  function SetField(d: TaskData, name: string, v: real): (r: TaskData)
    ensures name !in CostFieldNames ==> CalculateWeight(r) == CalculateWeight(d)
  {
    if name == "time_estimate" then d.(timeEstimate := Some(v))
    else if name == "pain_level" then d.(painLevel := Some(v))
    else if name == "complexity" then d.(complexity := Some(v))
    else if name == "human_in_loop_feedback_refined" then d.(humanInLoopRefined := Some(v))
    else if name == "success_probability" then d.(successProbability := Some(v))
    else d.(scales := d.scales[name := v])
  }

  const CostFieldNames: set<string> :=
    {"time_estimate", "pain_level", "complexity", "human_in_loop_feedback_refined", "success_probability"}

  /** Reading back the field a rating set gives the rating's value. */
  function GetField(d: TaskData, name: string): Option<real> {
    if name == "time_estimate" then d.timeEstimate
    else if name == "pain_level" then d.painLevel
    else if name == "complexity" then d.complexity
    else if name == "human_in_loop_feedback_refined" then d.humanInLoopRefined
    else if name == "success_probability" then d.successProbability
    else if name in d.scales then Some(d.scales[name])
    else None
  }

  lemma SetFieldReadsBack(d: TaskData, name: string, v: real, other: string)
    ensures GetField(SetField(d, name, v), name) == Some(v)
    ensures other != name ==> GetField(SetField(d, name, v), other) == GetField(d, other)
  {
  }
}

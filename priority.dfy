/** getPriorityColor: the styling a task's priority badge gets. */
module Priority {

  const HighColor := "text-red-600 bg-red-50"
  const MediumColor := "text-yellow-600 bg-yellow-50"
  const LowColor := "text-green-600 bg-green-50"
  const DefaultColor := "text-gray-600 bg-gray-50"

  /** "high", "medium" and "low" each get their own styling; any other value
      falls to the neutral default. */
  function PriorityColor(priority: string): (r: string)
    ensures priority == "high" <==> r == HighColor
    ensures priority == "medium" <==> r == MediumColor
    ensures priority == "low" <==> r == LowColor
    ensures priority !in {"high", "medium", "low"} <==> r == DefaultColor
  {
    match priority
    case "high" => HighColor
    case "medium" => MediumColor
    case "low" => LowColor
    case _ => DefaultColor
  }
}

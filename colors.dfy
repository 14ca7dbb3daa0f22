/** The colour choices of the table: priority chip, row background, status chip. */
module Colors {
  import opened Tasks

  /** `getPriorityColor`: grey once completed, otherwise by priority, grey for an unknown one. */
  function PriorityColor(priority: string, isCompleted: bool): (c: string)
    ensures isCompleted ==> c == "default"
    ensures !isCompleted ==> (c == "success" <==> priority == "low")
    ensures !isCompleted ==> (c == "warning" <==> priority == "medium")
    ensures !isCompleted ==> (c == "error" <==> priority == "high")
    ensures c in ["default", "success", "warning", "error"]
  {
    if isCompleted then "default"
    else match priority
      case "low" => "success"
      case "medium" => "warning"
      case "high" => "error"
      case _ => "default"
  }

  /** `getRowColor`. */
  function RowColor(isCompleted: bool): (c: string)
    ensures c == "#f0f0f0" <==> isCompleted
    ensures c == "transparent" <==> !isCompleted
  {
    if isCompleted then "#f0f0f0" else "transparent"
  }

  /** `getStatusChipColor`. */
  function StatusChipColor(isCompleted: bool): (c: string)
    ensures c == "success" <==> isCompleted
    ensures c == "error" <==> !isCompleted
  {
    if isCompleted then "success" else "error"
  }

  /** A coloured priority chip only ever stands on an open task with a known priority. */
  lemma ColouredChipMeansOpen(priority: string, isCompleted: bool)
    requires PriorityColor(priority, isCompleted) != "default"
    ensures !isCompleted && priority in ["low", "medium", "high"]
  {
  }

  /** The status chip's colour and its label agree, and the grey row goes with both. */
  lemma StatusChipAgreesWithLabel(isCompleted: bool)
    ensures StatusChipColor(isCompleted) == "success" <==> StatusText(isCompleted) == "Completed"
    ensures RowColor(isCompleted) == "#f0f0f0" <==> StatusText(isCompleted) == "Completed"
  {
  }
}

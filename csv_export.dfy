/**
 * `exportCSV` up to the joined text: one header line built from the keys of
 * the first row object, then one comma-joined line per task, in list order.
 */
module CsvExport {
  import opened Wrappers
  import opened Text
  import opened Tasks

  /** The keys of every row object, in insertion order. */
  const Columns := ["Title", "Description", "Priority", "Status", "Date"]

  /** Why nothing could be exported: with no tasks there is no first row to take keys from. */
  datatype ExportError = NoFirstRecord

  /** The values of one row object; Date is taken from the selected day, not from the task's `date`. */
  function RowValues(t: Task, selectedDay: string): seq<string> {
    [t.title, t.description, t.priority, StatusText(t.isCompleted), selectedDay]
  }

  function Rows(tasks: seq<Task>, selectedDay: string): (rows: seq<string>)
    ensures |rows| == |tasks|
    ensures forall k :: 0 <= k < |tasks| ==> rows[k] == Join(RowValues(tasks[k], selectedDay), ",")
  {
    if tasks == [] then []
    else [Join(RowValues(tasks[0], selectedDay), ",")] + Rows(tasks[1..], selectedDay)
  }

  /** `csvFileformat`: the header line, then the rows. */
  function CsvLines(tasks: seq<Task>, selectedDay: string): seq<string> {
    [Join(Columns, ",")] + Rows(tasks, selectedDay)
  }

  /** The text `exportCSV` puts in the blob, or the failure an empty list runs into. */
  function ExportCsv(tasks: seq<Task>, selectedDay: string): (r: Result<string, ExportError>)
    ensures r.Failure? <==> tasks == []
  {
    if tasks == [] then Failure(NoFirstRecord)
    else Success(Join(CsvLines(tasks, selectedDay), "\n"))
  }

  /**
   * The header line `Object.keys(tasksData[0]).join(',')` holds the five
   * column names, in order, and nothing else.
   */
  lemma HeaderColumns()
    ensures Split(Join(Columns, ","), ',') == ["Title", "Description", "Priority", "Status", "Date"]
  {
    SplitJoin(Columns, ',');
  }

  /** Every value of a task and the day, free of the given separator. */
  predicate FreeOf(t: Task, selectedDay: string, c: char) {
    c !in t.title && c !in t.description && c !in t.priority && c !in selectedDay
  }

  /** The status words hold neither separator. */
  lemma StatusPlain(isCompleted: bool)
    ensures ',' !in StatusText(isCompleted) && '\n' !in StatusText(isCompleted)
  {
  }

  /**
   * When no value holds a comma, the row splits back into exactly five
   * fields: the task's title, description and priority, its status word,
   * and the selected day.
   */
  lemma RowFields(t: Task, selectedDay: string)
    requires FreeOf(t, selectedDay, ',')
    ensures Split(Join(RowValues(t, selectedDay), ","), ',') ==
      [t.title, t.description, t.priority, StatusText(t.isCompleted), selectedDay]
  {
    StatusPlain(t.isCompleted);
    SplitJoin(RowValues(t, selectedDay), ',');
  }

  /** Values are not quoted: a title `a,b` with comma-free halves yields a row of six fields. */
  lemma CommaInTitleAddsColumn(t: Task, a: string, b: string, selectedDay: string)
    requires t.title == a + "," + b
    requires ',' !in a && ',' !in b && FreeOf(t.(title := a), selectedDay, ',')
    ensures |Split(Join(RowValues(t, selectedDay), ","), ',')| == 6
  {
    var rest := [t.description, t.priority, StatusText(t.isCompleted), selectedDay];
    var six := [a, b] + rest;
    var row := RowValues(t, selectedDay);
    assert six[1..] == [b] + rest && ([b] + rest)[1..] == rest && row[1..] == rest;
    assert Join(six, ",") == a + "," + Join(six[1..], ",");
    assert Join(six[1..], ",") == b + "," + Join(rest, ",");
    assert Join(row, ",") == t.title + "," + Join(rest, ",");
    assert Join(six, ",") == Join(row, ",");
    StatusPlain(t.isCompleted);
    SplitJoin(six, ',');
  }

  /**
   * Line breaks are not quoted either: the description box accepts several
   * lines, and a one-task export whose description is `a` + line break + `b`
   * splits into three lines instead of two.
   */
  lemma NewlineInDescriptionAddsLine(t: Task, a: string, b: string, selectedDay: string)
    requires t.description == a + "\n" + b
    requires '\n' !in a && '\n' !in b && FreeOf(t.(description := a), selectedDay, '\n')
    ensures ExportCsv([t], selectedDay).Success?
    ensures |Split(ExportCsv([t], selectedDay).value, '\n')| == 3
  {
    var tail := [t.priority, StatusText(t.isCompleted), selectedDay];
    var row := RowValues(t, selectedDay);
    assert row[1..] == [t.description] + tail && ([t.description] + tail)[1..] == tail;
    assert Join(row, ",") == t.title + "," + (t.description + "," + Join(tail, ","));
    var first := t.title + "," + a;
    var second := b + "," + Join(tail, ",");
    assert Join(row, ",") == first + "\n" + second;
    var header := Join(Columns, ",");
    var lines := [header, first, second];
    assert CsvLines([t], selectedDay) == [header, Join(row, ",")];
    assert lines[1..] == [first, second] && [first, second][1..] == [second];
    assert Join([second], "\n") == second;
    assert Join([first, second], "\n") == first + "\n" + second;
    assert Join(lines, "\n") == header + "\n" + Join([first, second], "\n");
    var csv := CsvLines([t], selectedDay);
    assert csv[1..] == [Join(row, ",")];
    assert Join(csv, "\n") == header + "\n" + Join(row, ",");
    assert Join(lines, "\n") == ExportCsv([t], selectedDay).value;
    HeaderPlain();
    StatusPlain(t.isCompleted);
    JoinFreeOf(tail, ",", '\n');
    SplitJoin(lines, '\n');
  }

  lemma HeaderPlain()
    ensures '\n' !in Join(Columns, ",")
  {
    JoinFreeOf(Columns, ",", '\n');
  }

  /** No line of the export holds a line break when no value does. */
  lemma LinesPlain(tasks: seq<Task>, selectedDay: string)
    requires forall k :: 0 <= k < |tasks| ==> FreeOf(tasks[k], selectedDay, '\n')
    ensures forall k :: 0 <= k < |CsvLines(tasks, selectedDay)| ==> '\n' !in CsvLines(tasks, selectedDay)[k]
  {
    var lines := CsvLines(tasks, selectedDay);
    forall k | 0 <= k < |lines| ensures '\n' !in lines[k] {
      if k == 0 {
        HeaderPlain();
      } else {
        var t := tasks[k - 1];
        StatusPlain(t.isCompleted);
        JoinFreeOf(RowValues(t, selectedDay), ",", '\n');
      }
    }
  }

  /**
   * When no value holds a line break, the exported text splits into the
   * header line followed by one line per task, in order.
   */
  lemma ExportLines(tasks: seq<Task>, selectedDay: string)
    requires tasks != []
    requires forall k :: 0 <= k < |tasks| ==> FreeOf(tasks[k], selectedDay, '\n')
    ensures ExportCsv(tasks, selectedDay).Success?
    ensures var lines := Split(ExportCsv(tasks, selectedDay).value, '\n');
      |lines| == |tasks| + 1 &&
      lines[0] == Join(Columns, ",") &&
      forall k :: 0 <= k < |tasks| ==> lines[k + 1] == Join(RowValues(tasks[k], selectedDay), ",")
  {
    LinesPlain(tasks, selectedDay);
    SplitJoin(CsvLines(tasks, selectedDay), '\n');
  }

  /** A join of pieces and a separator that all avoid `c` avoids `c`. */
  lemma {:induction false} JoinFreeOf(parts: seq<string>, sep: string, c: char)
    requires c !in sep
    requires forall k :: 0 <= k < |parts| ==> c !in parts[k]
    ensures c !in Join(parts, sep)
  {
    if |parts| > 1 {
      JoinFreeOf(parts[1..], sep, c);
    }
  }
}

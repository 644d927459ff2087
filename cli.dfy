/** The pure helpers of the command-line front end: choosing the editor from the
    environment, and turning features into the rows of the text table. */
module Cli {
  import opened Wrappers
  import opened Text
  import opened PyValues
  import opened Streams
  import opened Formats

  /** EditorEnvironmentVariables, in order of preference. */
  const EditorVariables: seq<string> := ["DEFT_EDITOR", "VISUAL", "EDITOR"]

  /** The UserError find_editor_command raises when none of the variables is set. */
  const NoEditorMessage: string :=
    "no editor specified: one of the environment variables " + JoinWith(", ", EditorVariables) + " must be set"

  /** find_editor_command(env): the value of the first editor variable env defines; the
      for-else raises UserError when the loop finds none. */
  method FindEditorCommand(env: map<string, string>) returns (r: Result<string>)
    ensures r.Ok? <==> exists k :: 0 <= k < |EditorVariables| && EditorVariables[k] in env
    ensures r.Ok? ==>
      exists k :: 0 <= k < |EditorVariables| && EditorVariables[k] in env && r.value == env[EditorVariables[k]]
                  && forall j :: 0 <= j < k ==> EditorVariables[j] !in env
    ensures r.Err? ==> r.error == UserError(NoEditorMessage)
  {
    for i := 0 to |EditorVariables|
      invariant forall j :: 0 <= j < i ==> EditorVariables[j] !in env
    {
      var v := EditorVariables[i];
      if v in env {
        return Ok(env[v]);
      }
    }
    r := Err(UserError(NoEditorMessage));
  }

  /** The parts of a feature the table rows read: its status, priority and name, and the
      properties dictionary property_values looks names up in. */
  datatype FeatureView = FeatureView(status: string, priority: int, name: string, properties: map<string, PyValue>)

  /** property_values(feature, names): for each name the feature's property, "" when it has
      none; no names give an empty list. */
  function PropertyValues(properties: map<string, PyValue>, names: seq<string>): (r: seq<PyValue>)
    ensures |r| == |names|
    ensures forall i :: 0 <= i < |names| && names[i] in properties ==> r[i] == properties[names[i]]
    ensures forall i :: 0 <= i < |names| && names[i] !in properties ==> r[i] == PStr("")
  {
    if names == [] then []
    else seq(|names|, i requires 0 <= i < |names| => if names[i] in properties then properties[names[i]] else PStr(""))
  }

  /** The row features_to_table makes of one feature. */
  function FeatureRow(f: FeatureView, names: seq<string>): (r: Row)
    ensures |r| == 3 + |names| && r[0] == PStr(f.status) && r[1] == PInt(f.priority) && r[2] == PStr(f.name)
  {
    [PStr(f.status), PInt(f.priority), PStr(f.name)] + PropertyValues(f.properties, names)
  }

  /** features_to_table(features, names): one row per feature, in the order given. */
  function FeaturesToTable(features: seq<FeatureView>, names: seq<string>): (r: seq<Row>)
    ensures |r| == |features|
    ensures forall j :: 0 <= j < |features| ==> |r[j]| == 3 + |names|
  {
    seq(|features|, j requires 0 <= j < |features| => FeatureRow(features[j], names))
  }

  /** write_features_as_text(features_table, out): the same code as write_table_as_text,
      line for line, so it writes what that writes. */
  method WriteFeaturesAsText(table: seq<Row>, out: StringIO) returns (r: Result<StringIO>)
    ensures table == [] ==> r == Ok(out)
    ensures TableLines(table).Err? ==> r == Err(TableLines(table).error)
    ensures TableLines(table).Ok? ==> r == Ok(Write(out, LinesText(TableLines(table).value)))
  {
    r := WriteTableAsText(table, out);
  }

  // ---------------------------------------------------------------------
  // Properties

  /** Every row of a feature table reads back the feature it was made from: status, priority,
      name, and then the requested properties in the order they were asked for. */
  lemma FeatureRowsReadBack(features: seq<FeatureView>, names: seq<string>, j: nat, i: nat)
    requires j < |features| && i < |names|
    ensures var row := FeaturesToTable(features, names)[j];
      row[0] == PStr(features[j].status) && row[1] == PInt(features[j].priority)
      && row[2] == PStr(features[j].name)
      && row[3 + i] == (if names[i] in features[j].properties then features[j].properties[names[i]] else PStr(""))
  {
    var row := FeaturesToTable(features, names)[j];
    assert row == FeatureRow(features[j], names);
    assert row[3 + i] == PropertyValues(features[j].properties, names)[i];
  }

  /** A feature table is written without error, every line as long as the others, and the
      priority column right-aligned: spaces, then the decimal priority. */
  lemma FeatureTableLayout(features: seq<FeatureView>, names: seq<string>, j: nat, k: nat)
    requires j < |features| && k < |features|
    ensures var table := FeaturesToTable(features, names);
      TableLines(table).Ok?
      && |TableLines(table).value[j]| == |TableLines(table).value[k]|
      && 1 < |TableWidths(table)|
      && var w := TableWidths(table)[1];
         var cell := Aligned(Str(table[j][1]), AlignFor(table[0][1]), w);
         |cell| == w && cell == Spaces(w - |IntToStr(features[j].priority)|) + IntToStr(features[j].priority)
  {
    var table := FeaturesToTable(features, names);
    assert forall r :: 0 <= r < |table| ==> |table[r]| == |table[0]|;
    RectangularTableLinesAlign(table, j, k);
    PriorityColumnAligned(features, names, j);
  }

  /** The priority cell of row j, aligned as the priority column of a feature table is. */
  lemma PriorityColumnAligned(features: seq<FeatureView>, names: seq<string>, j: nat)
    requires j < |features|
    ensures var table := FeaturesToTable(features, names);
      1 < |TableWidths(table)|
      && var w := TableWidths(table)[1];
         var cell := Aligned(Str(table[j][1]), AlignFor(table[0][1]), w);
         |cell| == w && cell == Spaces(w - |IntToStr(features[j].priority)|) + IntToStr(features[j].priority)
  {
    var table := FeaturesToTable(features, names);
    assert forall r :: 0 <= r < |table| ==> |table[r]| == |table[0]|;
    RectangularTableCellAligned(table, j, 1);
    assert table[0] == FeatureRow(features[0], names) && table[0][1] == PInt(features[0].priority);
    assert table[j] == FeatureRow(features[j], names) && table[j][1] == PInt(features[j].priority);
  }
}

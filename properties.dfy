/**
 * The plugin's table of camera variables (`variables` in
 * uca-phantom-camera.c): for each GObject property the plugin forwards to the
 * camera, the camera's variable name, its value type, whether it may be
 * written and whether get/set handle it automatically. The table ends with an
 * entry whose name is NULL, and `phantom_lookup_by_id` searches it up to that
 * sentinel.
 */
module Properties {
  import opened Wrappers

  /** The property ids the plugin handles: its own, the base-class ones it overrides, and any other id. */
  datatype PropId =
    | SensorType | SensorVersion | HardwareVersion | KernelVersion | FirmwareVersion | FpgaVersion
    | Model | ProtocolVersion | SystemReleaseVersion | FirmwareReleaseVersion | SerialNumber
    | SensorWidth | SensorHeight | Name | Features | ImageFormats | MaxNumCines
    | RoiWidthMultiplier | RoiHeightMultiplier | FrameSynchronization | FrameDelay | NumCines
    | FramesPerSecond | ExposureTime | RoiWidth | RoiHeight | EnableHqMode | RecordedFrames | CineState
    | SensorBitdepth | RoiX | RoiY | HasStreaming | HasCamramRecording | ImageFormat
    | Other(id: nat)

  /** The GType of a variable's value; the zeroed sentinel has G_TYPE_INVALID. */
  datatype ValueType = TypeInvalid | TypeUint | TypeString | TypeEnum | TypeFloat

  /** GParamFlags bits. */
  const ParamReadable: bv32 := 1
  const ParamWritable: bv32 := 2
  const ParamReadWrite: bv32 := 3

  /** One row of the table; the sentinel row has no name and every other field zero. */
  datatype UnitVariable = UnitVariable(name: Option<string>, valueType: ValueType, flags: bv32, propertyId: PropId, handleAutomatically: bool)

  /** The sentinel row `{ NULL, }`. */
  const Sentinel: UnitVariable := UnitVariable(None, TypeInvalid, 0, Other(0), false)

  function Var(name: string, t: ValueType, flags: bv32, id: PropId, auto: bool): UnitVariable
  {
    UnitVariable(Some(name), t, flags, id, auto)
  }

  /** The `variables` table, sentinel included. */
  const Variables: seq<UnitVariable> := [
    Var("info.sensor",     TypeUint,   ParamReadable,  SensorType,               true),
    Var("info.snsversion", TypeUint,   ParamReadable,  SensorVersion,            true),
    Var("info.hwver",      TypeUint,   ParamReadable,  HardwareVersion,          true),
    Var("info.kernel",     TypeUint,   ParamReadable,  KernelVersion,            true),
    Var("info.swver",      TypeUint,   ParamReadable,  FirmwareVersion,          true),
    Var("info.xver",       TypeUint,   ParamReadable,  FpgaVersion,              true),
    Var("info.model",      TypeString, ParamReadable,  Model,                    true),
    Var("info.pver",       TypeUint,   ParamReadable,  ProtocolVersion,          true),
    Var("info.sver",       TypeUint,   ParamReadable,  SystemReleaseVersion,     true),
    Var("info.fver",       TypeUint,   ParamReadable,  FirmwareReleaseVersion,   true),
    Var("info.serial",     TypeUint,   ParamReadable,  SerialNumber,             true),
    Var("info.xmax",       TypeUint,   ParamReadable,  SensorWidth,              true),
    Var("info.ymax",       TypeUint,   ParamReadable,  SensorHeight,             true),
    Var("info.name",       TypeString, ParamReadable,  Name,                     true),
    Var("info.features",   TypeString, ParamReadable,  Features,                 true),
    Var("info.imgformats", TypeString, ParamReadable,  ImageFormats,             true),
    Var("info.maxcines",   TypeUint,   ParamReadable,  MaxNumCines,              true),
    Var("info.xinc",       TypeUint,   ParamReadable,  RoiWidthMultiplier,       true),
    Var("info.yinc",       TypeUint,   ParamReadable,  RoiHeightMultiplier,      true),
    Var("cam.syncimg",     TypeEnum,   ParamReadWrite, FrameSynchronization,     true),
    Var("cam.frdelay",     TypeUint,   ParamReadWrite, FrameDelay,               false),
    Var("cam.cines",       TypeUint,   ParamReadWrite, NumCines,                 false),
    Var("defc.rate",       TypeFloat,  ParamReadWrite, FramesPerSecond,          true),
    Var("defc.exp",        TypeUint,   ParamReadWrite, ExposureTime,             false),
    Var("defc.meta.w",     TypeUint,   ParamReadWrite, RoiWidth,                 true),
    Var("defc.meta.h",     TypeUint,   ParamReadWrite, RoiHeight,                true),
    Var("defc.hqenable",   TypeUint,   ParamReadWrite, EnableHqMode,             true),
    Var("c1.frcount",      TypeUint,   ParamReadable,  RecordedFrames,           true),
    Var("c1.state",        TypeString, ParamReadable,  CineState,                true),
    Sentinel
  ]

  /** The index of the sentinel row of `Variables`. */
  const VariablesEnd: nat := 29

  /** `end` is the first row of `table` without a name: the rows before it are the searchable ones. */
  predicate SentinelAt(table: seq<UnitVariable>, end: nat)
  {
    end < |table| && table[end].name.None? && forall k :: 0 <= k < end ==> table[k].name.Some?
  }

  /** `var->flags & G_PARAM_WRITABLE`: the camera accepts `set` for this variable. */
  predicate Writable(v: UnitVariable)
  {
    v.flags & ParamWritable != 0
  }

  /** The first row from `i` up to the sentinel with the given id, if any. */
  function FindFrom(table: seq<UnitVariable>, id: PropId, i: nat, end: nat): (r: Option<nat>)
    requires i <= end < |table|
    ensures r.Some? ==> i <= r.value < end && table[r.value].propertyId == id
    ensures r.Some? ==> forall k :: i <= k < r.value ==> table[k].propertyId != id
    ensures r.None? <==> forall k :: i <= k < end ==> table[k].propertyId != id
    decreases end - i
  {
    if i == end then None
    else if table[i].propertyId == id then Some(i)
    else FindFrom(table, id, i + 1, end)
  }

  /** A table as lookup sees it: its rows and the index of its sentinel row. */
  datatype Table = Table(rows: seq<UnitVariable>, end: nat)

  /** A table whose row `end` is its sentinel, so a search stops there. */
  type SearchableTable = t: Table | SentinelAt(t.rows, t.end) witness Table([Sentinel], 0)

  /** The row phantom_lookup_by_id returns: the first one before the sentinel whose id matches, or none. */
  function FindById(t: SearchableTable, id: PropId): Option<nat>
  {
    FindFrom(t.rows, id, 0, t.end)
  }

  /**
   * `phantom_lookup_by_id`: walks the table until the row with no name and
   * returns the index of the first row with the given id.
   */
  method LookupById(t: SearchableTable, id: PropId) returns (r: Option<nat>)
    ensures r == FindById(t, id)
  {
    var i := 0;
    while t.rows[i].name.Some?
      invariant i <= t.end
      invariant FindFrom(t.rows, id, i, t.end) == FindById(t, id)
      decreases t.end - i
    {
      if t.rows[i].propertyId == id {
        return Some(i);
      }
      i := i + 1;
    }
    return None;
  }

  /** Row 29 of the table is its sentinel and every row before it has a name. */
  lemma VariablesSentinel()
    ensures SentinelAt(Variables, VariablesEnd)
  {
    forall k | 0 <= k < VariablesEnd
      ensures Variables[k].name.Some?
    {
    }
  }

  /** The plugin's `variables` table, searched up to its sentinel. */
  const PluginTable: SearchableTable := (VariablesSentinel(); Table(Variables, VariablesEnd))

  /** No named row of the table carries one of the ids the plugin answers itself. */
  lemma TableOmitsPluginIds()
    ensures forall k :: 0 <= k < VariablesEnd ==>
      !Variables[k].propertyId.ImageFormat? && !Variables[k].propertyId.SensorBitdepth? &&
      !Variables[k].propertyId.HasStreaming? && !Variables[k].propertyId.HasCamramRecording?
  {
  }

  /** image-format and sensor-bitdepth, which the plugin answers itself, are not in the table: lookup gives NULL. */
  lemma PluginIdsAbsent()
    ensures FindById(PluginTable, ImageFormat) == None
    ensures FindById(PluginTable, SensorBitdepth) == None
  {
    TableOmitsPluginIds();
    var t := PluginTable;
    assert t.rows == Variables && t.end == VariablesEnd;
    Absent(t, ImageFormat);
    Absent(t, SensorBitdepth);
  }

  /** has-streaming and has-camram-recording, which the plugin answers itself, are not in the table either. */
  lemma CapabilityIdsAbsent()
    ensures FindById(PluginTable, HasStreaming) == None
    ensures FindById(PluginTable, HasCamramRecording) == None
  {
    TableOmitsPluginIds();
    var t := PluginTable;
    assert t.rows == Variables && t.end == VariablesEnd;
    Absent(t, HasStreaming);
    Absent(t, HasCamramRecording);
  }

  /** An id no row before the sentinel carries is not found. */
  lemma Absent(t: SearchableTable, id: PropId)
    requires forall k :: 0 <= k < t.end ==> t.rows[k].propertyId != id
    ensures FindById(t, id) == None
  {
  }

  /** A row that matches, with no match before it, is the one the lookup finds. */
  lemma FindFirstMatch(t: SearchableTable, id: PropId, j: nat)
    requires j < t.end && t.rows[j].propertyId == id
    requires forall k :: 0 <= k < j ==> t.rows[k].propertyId != id
    ensures FindById(t, id) == Some(j)
  {
  }

  /** The rows before cam.frdelay do not carry frame-delay. */
  lemma RowsBeforeFrameDelay()
    ensures forall k :: 0 <= k < 20 ==> !Variables[k].propertyId.FrameDelay?
  {
  }

  /** frame-delay is found at the row of cam.frdelay. */
  lemma FrameDelayRow()
    ensures FindById(PluginTable, FrameDelay) == Some(20)
  {
    RowsBeforeFrameDelay();
    FindFirstMatch(PluginTable, FrameDelay, 20);
  }

  /** The rows before cam.cines do not carry num-cines. */
  lemma RowsBeforeCines()
    ensures forall k :: 0 <= k < 21 ==> !Variables[k].propertyId.NumCines?
  {
  }

  /** num-cines is found at the row of cam.cines. */
  lemma NumCinesRow()
    ensures FindById(PluginTable, NumCines) == Some(21)
  {
    RowsBeforeCines();
    FindFirstMatch(PluginTable, NumCines, 21);
  }

  /** The rows before defc.exp do not carry exposure-time. */
  lemma RowsBeforeExposure()
    ensures forall k :: 0 <= k < 23 ==> !Variables[k].propertyId.ExposureTime?
  {
  }

  /** exposure-time is found at the row of defc.exp. */
  lemma ExposureTimeRow()
    ensures FindById(PluginTable, ExposureTime) == Some(23)
  {
    RowsBeforeExposure();
    FindFirstMatch(PluginTable, ExposureTime, 23);
  }

  /** The rows of cam.frdelay, cam.cines and defc.exp are writable and not handled automatically. */
  lemma ManualRowFields()
    ensures var rows := PluginTable.rows;
      rows[20].name == Some("cam.frdelay") && rows[21].name == Some("cam.cines") && rows[23].name == Some("defc.exp")
    ensures var rows := PluginTable.rows;
      !rows[20].handleAutomatically && !rows[21].handleAutomatically && !rows[23].handleAutomatically
    ensures var rows := PluginTable.rows;
      Writable(rows[20]) && Writable(rows[21]) && Writable(rows[23])
  {
    assert PluginTable.rows == Variables;
  }
}

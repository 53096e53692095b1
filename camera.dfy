/**
 * The Phantom camera object of uca-phantom-camera.c: the image format it
 * requests frames in, the frame buffer the data connection fills, and the
 * requests it sends over the control connection. The GObject property
 * get/set dispatch decides between the table's automatic handling and the
 * plugin's own cases; grab asks for a frame and decodes it by format.
 */
module Camera {
  import opened Wrappers
  import opened Protocol
  import opened Properties
  import opened P12L

  /** MAX_BUFFER_SIZE: one 1024 x 976 frame of 16-bit pixels, in bytes (1024 * 976 * 2). */
  const MaxBufferSize: nat := 1998848

  /** The frame buffer (`g_malloc0 (MAX_BUFFER_SIZE)` of guint32) in words. */
  const BufferWords: nat := 499712

  /** The number of pixels grab decodes into the caller's buffer (1024 * 976). */
  const GrabPixels: nat := 999424

  /** A GValue as far as the plugin's own cases produce or consume one. */
  datatype PropValue = Uint(n: nat) | Bool(b: bool) | Format(f: ImageFormat)

  /** What get_property leaves in the GValue. */
  datatype GetResult =
    | Untouched                         // no case applies: the value is left as it was
    | Fetched(reply: Option<string>)    // `phantom_get`: the camera's reply, before its regex parse
    | Nanoseconds(reply: Option<string>) // the reply atoi and the division to seconds are applied to
    | Value(v: PropValue)               // a value the plugin answers itself

  /** The ids get_property reads by hand, with the row the table holds for them. */
  predicate ByHand(id: PropId)
  {
    id == ExposureTime || id == FrameDelay || id == NumCines
  }

  /** A table get/set can dispatch on: it holds rows for the ids the plugin reads by hand. */
  ghost predicate Dispatchable(t: SearchableTable)
  {
    forall id {:trigger FindById(t, id)} :: ByHand(id) ==> FindById(t, id).Some?
  }

  /** The row phantom_lookup_by_id returns for an id, if any. */
  function Row(t: SearchableTable, id: PropId): (r: Option<UnitVariable>)
    ensures r.Some? ==> r.value.name.Some? && r.value.propertyId == id
    ensures r.None? <==> forall k :: 0 <= k < t.end ==> t.rows[k].propertyId != id
  {
    match FindById(t, id)
    case None => None
    case Some(k) => Some(t.rows[k])
  }

  /** The variable is in the table and get/set handle it automatically. */
  predicate Automatic(t: SearchableTable, id: PropId)
  {
    Row(t, id).Some? && Row(t, id).value.handleAutomatically
  }

  /** The requests `phantom_set_string` sends: none for a read-only variable, else one `set`. */
  function SetStringRequests(v: UnitVariable, text: string): (rs: seq<string>)
    requires v.name.Some?
  {
    if Writable(v) then [Encode(Set(v.name.value, text))] else []
  }

  /**
   * The requests set_property sends: automatic variables and exposure-time go
   * through `phantom_set_string` with the value as text; every other id sends nothing.
   */
  function SetRequests(t: SearchableTable, id: PropId, text: string): seq<string>
  {
    match Row(t, id)
    case Some(v) => if v.handleAutomatically || id == ExposureTime then SetStringRequests(v, text) else []
    case None => []
  }

  /** The image format after set_property: only a non-automatic image-format id changes it. */
  function FormatAfterSet(t: SearchableTable, format: ImageFormat, id: PropId, value: PropValue): ImageFormat
    requires id == ImageFormat ==> value.Format?
  {
    if Automatic(t, id) then format
    else if id == ImageFormat then value.f
    else format
  }

  /** The requests get_property sends: one `get` for the variable when the reply is needed. */
  function GetRequests(t: SearchableTable, id: PropId): seq<string>
  {
    match Row(t, id)
    case Some(v) =>
      if v.handleAutomatically || ByHand(id)
      then [Encode(Get(v.name.value))] else []
    case None => []
  }

  /** The value get_property produces, given the cleaned reply to its `get` request when it sends one. */
  function Answer(t: SearchableTable, format: ImageFormat, id: PropId, reply: Option<string>): GetResult
  {
    if Automatic(t, id) then Fetched(reply)
    else if id == SensorBitdepth then Value(Uint(12))
    else if id == ExposureTime || id == FrameDelay then Nanoseconds(reply)
    else if id == NumCines then Fetched(reply)
    else if id == ImageFormat then Value(Format(format))
    else if id == HasStreaming then Value(Bool(false))
    else if id == HasCamramRecording then Value(Bool(true))
    else Untouched
  }

  /** The two 16-bit halves of a word in memory order on a little-endian host: low (k = 0), then high. */
  function Half(w: bv32, k: nat): bv16
    requires k < 2
  {
    if k == 0 then (w & 0xFFFF) as bv16 else (w >> 16) as bv16
  }

  /** The pixels a memcpy of the words into a guint16 buffer gives. */
  function Halves(ws: seq<bv32>): (px: seq<bv16>)
    ensures |px| == 2 * |ws|
  {
    seq(2 * |ws|, k requires 0 <= k < 2 * |ws| => Half(ws[k / 2], k % 2))
  }

  /** Joins two halves back into the word they came from. */
  function Join(lo: bv16, hi: bv16): bv32
  {
    (hi as bv32 << 16) | lo as bv32
  }

  /** Splitting a word into halves loses nothing: joining them gives the word back. */
  lemma HalfJoin(w: bv32)
    ensures Join(Half(w, 0), Half(w, 1)) == w
  {
  }

  /** The P16 copy is lossless: every word is the join of the two pixels it was copied into. */
  lemma HalvesLossless(ws: seq<bv32>)
    ensures forall k :: 0 <= k < |ws| ==> Join(Halves(ws)[2 * k], Halves(ws)[2 * k + 1]) == ws[k]
  {
    forall k | 0 <= k < |ws|
      ensures Join(Halves(ws)[2 * k], Halves(ws)[2 * k + 1]) == ws[k]
    {
      var px := Halves(ws);
      assert px[2 * k] == Half(ws[k], 0);
      assert px[2 * k + 1] == Half(ws[k], 1);
      HalfJoin(ws[k]);
    }
  }

  /**
   * The P12L decode of a grab stays inside the frame buffer and fills exactly
   * the pixels a P16 copy does: 1024 x 976 pixels are 124928 groups, which read
   * 374784 of the buffer's 499712 words.
   */
  lemma GrabFitsBuffer()
    ensures 4 * BufferWords == MaxBufferSize && 2 * BufferWords == GrabPixels
    ensures 8 * Groups(GrabPixels) == GrabPixels && 3 * Groups(GrabPixels) <= BufferWords
  {
  }

  /** The row of an id lookup finds. */
  lemma RowFound(t: SearchableTable, id: PropId, k: nat)
    requires FindById(t, id) == Some(k)
    ensures k < t.end && Row(t, id) == Some(t.rows[k])
  {
  }

  /** No row for an id lookup does not find. */
  lemma RowAbsent(t: SearchableTable, id: PropId)
    requires FindById(t, id) == None
    ensures Row(t, id) == None
  {
  }

  /**
   * In any table without a row for image-format: setting it and then getting
   * it gives back the format that was set, and neither talks to the camera.
   */
  lemma FormatRoundTrip(t: SearchableTable, format: ImageFormat, f: ImageFormat, text: string, reply: Option<string>)
    requires FindById(t, ImageFormat) == None
    ensures Answer(t, FormatAfterSet(t, format, ImageFormat, Format(f)), ImageFormat, reply) == Value(Format(f))
    ensures SetRequests(t, ImageFormat, text) == [] && GetRequests(t, ImageFormat) == []
  {
    RowAbsent(t, ImageFormat);
  }

  /** In the plugin's table, setting image-format and then getting it gives back the format that was set. */
  lemma SetThenGetFormat(format: ImageFormat, f: ImageFormat, text: string, reply: Option<string>)
    ensures Answer(PluginTable, FormatAfterSet(PluginTable, format, ImageFormat, Format(f)), ImageFormat, reply) == Value(Format(f))
    ensures SetRequests(PluginTable, ImageFormat, text) == [] && GetRequests(PluginTable, ImageFormat) == []
  {
    PluginIdsAbsent();
    FormatRoundTrip(PluginTable, format, f, text, reply);
  }

  /** A set of any other id leaves the format as it was. */
  lemma FormatOnlyByImageFormat(t: SearchableTable, format: ImageFormat, id: PropId, value: PropValue)
    requires id != ImageFormat
    ensures FormatAfterSet(t, format, id, value) == format
  {
  }

  /**
   * In any table without rows for them, sensor-bitdepth is 12, has-streaming
   * is false and has-camram-recording true, and none of them costs a request.
   */
  lemma LocalAnswers(t: SearchableTable, format: ImageFormat, reply: Option<string>)
    requires FindById(t, SensorBitdepth) == None && FindById(t, HasStreaming) == None
    requires FindById(t, HasCamramRecording) == None
    ensures Answer(t, format, SensorBitdepth, reply) == Value(Uint(12)) && GetRequests(t, SensorBitdepth) == []
    ensures Answer(t, format, HasStreaming, reply) == Value(Bool(false)) && GetRequests(t, HasStreaming) == []
    ensures Answer(t, format, HasCamramRecording, reply) == Value(Bool(true)) && GetRequests(t, HasCamramRecording) == []
  {
    RowAbsent(t, SensorBitdepth);
    RowAbsent(t, HasStreaming);
    RowAbsent(t, HasCamramRecording);
  }

  /** In the plugin's table: sensor-bitdepth 12, no streaming, camera RAM recording, all without a request. */
  lemma PluginAnswers(format: ImageFormat, reply: Option<string>)
    ensures Answer(PluginTable, format, SensorBitdepth, reply) == Value(Uint(12)) && GetRequests(PluginTable, SensorBitdepth) == []
    ensures Answer(PluginTable, format, HasStreaming, reply) == Value(Bool(false)) && GetRequests(PluginTable, HasStreaming) == []
    ensures Answer(PluginTable, format, HasCamramRecording, reply) == Value(Bool(true)) && GetRequests(PluginTable, HasCamramRecording) == []
  {
    PluginIdsAbsent();
    CapabilityIdsAbsent();
    LocalAnswers(PluginTable, format, reply);
  }

  /** The plugin's table holds the rows get/set handle by hand. */
  lemma PluginTableDispatchable()
    ensures Dispatchable(PluginTable)
  {
    forall id | ByHand(id)
      ensures FindById(PluginTable, id).Some?
    {
      if id == ExposureTime {
        ExposureTimeRow();
      } else if id == FrameDelay {
        FrameDelayRow();
      } else {
        NumCinesRow();
      }
    }
  }

  /**
   * A variable get/set do not handle automatically, found at row k under the
   * name `name`: get asks for it, and set writes it only for exposure-time.
   */
  lemma ManualVariable(t: SearchableTable, id: PropId, k: nat, name: string, text: string, format: ImageFormat, reply: Option<string>)
    requires FindById(t, id) == Some(k) && k < |t.rows| && t.rows[k].name == Some(name)
    requires !t.rows[k].handleAutomatically && Writable(t.rows[k])
    requires id == ExposureTime || id == FrameDelay || id == NumCines
    ensures GetRequests(t, id) == [Encode(Get(name))]
    ensures SetRequests(t, id, text) == if id == ExposureTime then [Encode(Set(name, text))] else []
    ensures Answer(t, format, id, reply) == if id == NumCines then Fetched(reply) else Nanoseconds(reply)
  {
    RowFound(t, id, k);
  }

  /** exposure-time is written to and read from defc.exp, as nanoseconds. */
  lemma ExposureTimeVariable(text: string, format: ImageFormat, reply: Option<string>)
    ensures GetRequests(PluginTable, ExposureTime) == [Encode(Get("defc.exp"))]
    ensures SetRequests(PluginTable, ExposureTime, text) == [Encode(Set("defc.exp", text))]
    ensures Answer(PluginTable, format, ExposureTime, reply) == Nanoseconds(reply)
  {
    ExposureTimeRow();
    ManualRowFields();
    ManualVariable(PluginTable, ExposureTime, 23, "defc.exp", text, format, reply);
  }

  /** frame-delay is read from cam.frdelay as nanoseconds; setting it sends nothing. */
  lemma FrameDelayVariable(text: string, format: ImageFormat, reply: Option<string>)
    ensures GetRequests(PluginTable, FrameDelay) == [Encode(Get("cam.frdelay"))]
    ensures SetRequests(PluginTable, FrameDelay, text) == []
    ensures Answer(PluginTable, format, FrameDelay, reply) == Nanoseconds(reply)
  {
    FrameDelayRow();
    ManualRowFields();
    ManualVariable(PluginTable, FrameDelay, 20, "cam.frdelay", text, format, reply);
  }

  /** num-cines is read from cam.cines as a plain reply; setting it sends nothing. */
  lemma NumCinesVariable(text: string, format: ImageFormat, reply: Option<string>)
    ensures GetRequests(PluginTable, NumCines) == [Encode(Get("cam.cines"))]
    ensures SetRequests(PluginTable, NumCines, text) == []
    ensures Answer(PluginTable, format, NumCines, reply) == Fetched(reply)
  {
    NumCinesRow();
    ManualRowFields();
    ManualVariable(PluginTable, NumCines, 21, "cam.cines", text, format, reply);
  }

  /** The writable gate: a `set` is only ever sent for a writable variable of the table, and names it. */
  lemma SetOnlyWritable(t: SearchableTable, id: PropId, text: string)
    ensures var rs, row := SetRequests(t, id, text), Row(t, id);
      rs != [] ==> row.Some? && Writable(row.value) && rs == [Encode(Set(row.value.name.value, text))]
    ensures Automatic(t, id) && Writable(Row(t, id).value) ==> SetRequests(t, id, text) != []
  {
  }

  /** Appending no requests leaves the record as it was. */
  lemma NothingSent(sent: seq<string>)
    ensures sent + [] == sent
  {
  }

  /** `g_malloc0 (MAX_BUFFER_SIZE)`: a fresh frame buffer of zero words. */
  method ZeroedBuffer() returns (a: array<bv32>)
    ensures fresh(a) && a.Length == BufferWords
    ensures forall k :: 0 <= k < a.Length ==> a[k] == 0
  {
    a := new bv32[BufferWords](_ => 0);
  }

  /**
   * The plugin's state: the selected image format, the frame buffer and the
   * requests sent so far. `table` is the `variables` table lookup searches.
   */
  class PhantomCamera {
    var format: ImageFormat
    var sent: seq<string>
    const buffer: array<bv32>
    const table: SearchableTable

    /** The frame buffer has the size init allocates. */
    predicate BufferReady()
    {
      buffer.Length == BufferWords
    }

    /** The frame buffer has its size and the table can be dispatched on. */
    ghost predicate Valid()
    {
      BufferReady() && Dispatchable(table)
    }

    /** Instance initialisation: P12L, an all-zero frame buffer, nothing sent yet. */
    constructor ()
      ensures Valid() && fresh(buffer)
      ensures table == PluginTable
      ensures format == FormatP12L && sent == []
      ensures forall k :: 0 <= k < buffer.Length ==> buffer[k] == 0
    {
      var words := ZeroedBuffer();
      format := FormatP12L;
      sent := [];
      buffer := words;
      table := PluginTable;
      PluginTableDispatchable();
    }

    /** `phantom_set_string`: sends a `set` request unless the variable is read-only. */
    method SetString(v: UnitVariable, text: string)
      requires v.name.Some?
      modifies this
      ensures format == old(format)
      ensures sent == old(sent) + SetStringRequests(v, text)
    {
      if v.flags & ParamWritable == 0 {
        return;
      }
      var request := Encode(Set(v.name.value, text));
      sent := sent + [request];
    }

    /**
     * set_property. `text` is the value as the string the camera is sent: the
     * GLib transform of the GValue, or for exposure-time the nanoseconds.
     */
    method SetProperty(id: PropId, value: PropValue, text: string)
      requires Valid() && (id == ImageFormat ==> value.Format?)
      modifies this
      ensures format == FormatAfterSet(table, old(format), id, value)
      ensures sent == old(sent) + SetRequests(table, id, text)
    {
      var r := LookupById(table, id);
      assert r.Some? <==> Row(table, id).Some?;
      assert r.Some? ==> Row(table, id).value == table.rows[r.value];
      if r.Some? && table.rows[r.value].handleAutomatically {
        SetString(table.rows[r.value], text);
        return;
      }
      if id == ExposureTime {
        SetString(table.rows[r.value], text);
      } else {
        NothingSent(sent);
        if id == ImageFormat {
          format := value.f;
        }
      }
    }

    /** `phantom_get_string`: sends the `get` request for the variable and returns the cleaned reply. */
    method GetString(v: UnitVariable, e: Exchange) returns (reply: Option<string>)
      requires v.name.Some? && Delivered(e, ReplySize - 1)
      modifies this
      ensures format == old(format)
      ensures sent == old(sent) + [Encode(Get(v.name.value))]
      ensures reply == CleanReply(e)
    {
      var request;
      request, reply := GetStringByName(v.name.value, e);
      sent := sent + [request];
    }

    /** get_property, for the exchange its `get` request meets when it sends one. */
    method GetProperty(id: PropId, e: Exchange) returns (r: GetResult)
      requires Valid() && Delivered(e, ReplySize - 1)
      modifies this
      ensures format == old(format)
      ensures sent == old(sent) + GetRequests(table, id)
      ensures r == Answer(table, format, id, CleanReply(e))
    {
      var row := LookupById(table, id);
      assert row.Some? <==> Row(table, id).Some?;
      assert row.Some? ==> Row(table, id).value == table.rows[row.value];
      if row.Some? && table.rows[row.value].handleAutomatically {
        var reply := GetString(table.rows[row.value], e);
        return Fetched(reply);
      }
      if ByHand(id) {
        r := GetByHand(id, row.value, e);
      } else {
        r := OwnValue(id);
        NothingSent(sent);
      }
    }

    /** The reads get_property does by hand: exposure-time and frame-delay in nanoseconds, num-cines as is. */
    method GetByHand(id: PropId, k: nat, e: Exchange) returns (r: GetResult)
      requires Delivered(e, ReplySize - 1) && ByHand(id)
      requires FindById(table, id) == Some(k) && !table.rows[k].handleAutomatically
      modifies this
      ensures format == old(format)
      ensures sent == old(sent) + GetRequests(table, id)
      ensures r == Answer(table, format, id, CleanReply(e))
    {
      RowFound(table, id, k);
      var reply := GetString(table.rows[k], e);
      if id == NumCines {
        r := Fetched(reply);
      } else {
        r := Nanoseconds(reply);
      }
    }

    /** The values get_property answers itself, without a request, whatever a reply would have been. */
    method OwnValue(id: PropId) returns (r: GetResult)
      requires !Automatic(table, id) && !ByHand(id)
      ensures GetRequests(table, id) == []
      ensures forall reply :: r == Answer(table, format, id, reply)
    {
      if id == SensorBitdepth {
        r := Value(Uint(12));
      } else if id == ImageFormat {
        r := Value(Format(format));
      } else if id == HasStreaming {
        r := Value(Bool(false));
      } else if id == HasCamramRecording {
        r := Value(Bool(true));
      } else {
        r := Untouched;
      }
    }

    /** `phantom_talk` with its own 512-byte reply buffer: the request is sent and the reply returned. */
    method Send(request: string, e: Exchange) returns (reply: Option<Reply>)
      requires Delivered(e, ReplySize - 1)
      modifies this
      ensures format == old(format)
      ensures sent == old(sent) + [request]
      ensures reply == Talk(e, seq(ReplySize, _ => NUL))
    {
      sent := sent + [request];
      reply := Talk(e, seq(ReplySize, _ => NUL));
    }

    /** start_recording: sends `rec 1`; the reply only carries an error. */
    method StartRecording(e: Exchange) returns (reply: Option<Reply>)
      requires Delivered(e, ReplySize - 1)
      modifies this
      ensures format == old(format)
      ensures sent == old(sent) + [Encode(Rec)]
      ensures reply == Talk(e, seq(ReplySize, _ => NUL))
    {
      reply := Send("rec 1\r\n", e);
    }

    /** trigger: sends `trig`, which starts the acquisition of a whole series. */
    method Trigger(e: Exchange) returns (reply: Option<Reply>)
      requires Delivered(e, ReplySize - 1)
      modifies this
      ensures format == old(format)
      ensures sent == old(sent) + [Encode(Trig)]
      ensures reply == Talk(e, seq(ReplySize, _ => NUL))
    {
      reply := Send("trig\r\n", e);
    }

    /** stop_recording sends nothing and changes nothing. */
    method StopRecording()
      ensures format == old(format) && sent == old(sent)
    {
    }

    /** The data connection's read of a frame: the words received overwrite the front of the buffer. */
    method Receive(frame: seq<bv32>)
      requires BufferReady() && |frame| <= BufferWords
      modifies buffer
      ensures buffer[..] == frame + old(buffer[..])[|frame|..]
    {
      forall k | 0 <= k < |frame| {
        buffer[k] := frame[k];
      }
      assert buffer[..] == frame + old(buffer[..])[|frame|..];
    }

    /** The P16 decode: `memcpy` of the whole buffer into the caller's 16-bit pixels. */
    method CopyFrame(data: array<bv16>)
      requires BufferReady() && GrabPixels <= data.Length
      modifies data
      ensures data[..GrabPixels] == Halves(buffer[..])
      ensures data[GrabPixels..] == old(data[GrabPixels..])
    {
      forall k | 0 <= k < GrabPixels {
        data[k] := Half(buffer[k / 2], k % 2);
      }
      assert data[..GrabPixels] == Halves(buffer[..]);
    }

    /** The P12L decode: `unpack_p12l` of the whole buffer into the caller's 16-bit pixels. */
    method UnpackFrame(data: array<bv16>)
      requires BufferReady() && GrabPixels <= data.Length
      modifies data
      ensures data[..GrabPixels] == Unpacked(buffer[..], Groups(GrabPixels))
      ensures data[GrabPixels..] == old(data[GrabPixels..])
    {
      GrabFitsBuffer();
      UnpackP12L(data, buffer, GrabPixels);
    }

    /** The decode step of grab: the buffer's frame into the caller's pixels, by the selected format. */
    method Decode(data: array<bv16>)
      requires BufferReady() && GrabPixels <= data.Length
      modifies data
      ensures format == FormatP16 ==> data[..GrabPixels] == Halves(buffer[..])
      ensures format == FormatP12L ==> data[..GrabPixels] == Unpacked(buffer[..], Groups(GrabPixels))
      ensures data[GrabPixels..] == old(data[GrabPixels..])
    {
      if format == FormatP16 {
        CopyFrame(data);
      } else {
        UnpackFrame(data);
      }
    }

    /**
     * grab: asks for a frame in the selected format; when the request got a
     * reply, the frame arrives in the buffer and is decoded into `data`, copied
     * for P16 and unpacked for P12L. `frame` is what the data connection delivers.
     */
    method Grab(data: array<bv16>, e: Exchange, frame: seq<bv32>) returns (ok: bool)
      requires BufferReady() && GrabPixels <= data.Length && |frame| <= BufferWords
      requires Delivered(e, ReplySize - 1)
      modifies this, buffer, data
      ensures format == old(format)
      ensures sent == old(sent) + [Encode(Img(format))]
      ensures ok <==> e.written && e.readCount > 0
      ensures !ok ==> buffer[..] == old(buffer[..]) && data[..] == old(data[..])
      ensures ok ==> buffer[..] == frame + old(buffer[..])[|frame|..]
      ensures ok && format == FormatP16 ==> data[..GrabPixels] == Halves(buffer[..])
      ensures ok && format == FormatP12L ==> data[..GrabPixels] == Unpacked(buffer[..], Groups(GrabPixels))
      ensures data[GrabPixels..] == old(data[GrabPixels..])
    {
      var request := if format == FormatP16 then Encode(Img(FormatP16)) else Encode(Img(FormatP12L));
      var reply := Send(request, e);
      if reply == None {
        return false;
      }
      Receive(frame);
      Decode(data);
      return true;
    }
  }
}

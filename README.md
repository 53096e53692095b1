# Phantom camera plugin — a verified model

This project models the core of the libuca plugin for Vision Research Phantom
cameras, `uca-phantom-camera.c`, together with the script `utils/test.py` that
drives it. The modelled parts are:

- **P12L unpacking** (`P12L`). `unpack_p12l` spreads eight 12-bit pixels, packed
  into three big-endian 32-bit words, into eight 16-bit pixels. The method keeps
  the plugin's own masks and shifts. It is proved to compute the packing that
  the plugin's comment describes, and that packing is proved lossless in both
  directions.
- **The text protocol** (`Protocol`):
  - the request lines (`get`, `set`, `rec 1`, `trig`, `img {…}`) and their
    unambiguous reading back;
  - `phantom_talk`'s reply handling, both as written and as intended;
  - the reply clean-up of `phantom_get_string_by_name`, in place on the reply
    buffer;
  - `str_to_boolean`.
- **The variable table** (`Properties`). This is the `variables` table with its
  `NULL` sentinel row, and `phantom_lookup_by_id`, which walks it up to that
  sentinel.
- **The camera object** (`Camera.PhantomCamera`). Its fields are the selected
  image format, the zeroed frame buffer and the record of requests sent.
  - The GObject `set_property`/`get_property` dispatch chooses between the
    table's automatic handling and the plugin's own cases. `Answer`,
    `GetRequests`, `SetRequests` and `FormatAfterSet` say what that dispatch
    does.
  - `start_recording`, `trigger` and `stop_recording`.
  - `grab` asks for a frame in the selected format. It then copies the frame
    (P16) or unpacks it (P12L) into the caller's pixels.
- **UDP discovery** (`Discovery`). It cuts the camera's answer to the broadcast
  `phantom?` at its first `'\0'`, within the 128-byte reply buffer. It then
  looks for the leftmost `PH16 <digits> <digits> <digits>` and turns the first
  number into the port of the control connection.
- **The test script** (`Session`):
  - the `LOG_CONFIG` level lookup;
  - `create_array_from`;
  - the order of the calls `command` makes on the camera, modelled as a trace
    of events on an abstract camera, any call of which may raise.

Sockets, threads and the regex engine are not executed here. One exchange on the
control connection is described by an `Protocol.Exchange` value. It records
whether the request was written, what the read returned and which bytes
arrived. The frame the data connection delivers, and the datagram discovery
receives, are parameters too.

## Model

| member | source | states |
|---|---|---|
| P12L.UnpackP12L | uca-phantom-camera.c:540-594 | For `numPixels` pixels, the output's first 8·⌈numPixels/8⌉ entries are exactly the unpacking of the input's words, group by group, and every later output entry is unchanged. The loop is proved with invariants. |
| P12L.SourcePixels | uca-phantom-camera.c:557-593 | The plugin's byte swap and its eight mask-and-shift expressions give exactly the eight pixels the packing places in the three words. |
| P12L.SourceMasks | uca-phantom-camera.c:562-592 | Each of the eight mask/shift expressions reads its pixel off the big-endian nibble stream: middle nibble high, low nibble middle, high nibble low. |
| P12L.UnpackStep | uca-phantom-camera.c:557-593 | One pass of the loop writes group g's pixels to output[8g..8g+8] and leaves every other entry unchanged. |
| P12L.Groups | uca-phantom-camera.c:557 | The loop visits the least number of 8-pixel groups covering `numPixels`. |
| P12L.NtohlInvolutive | uca-phantom-camera.c:558-560 | The `g_ntohl` byte swap on a little-endian host is its own inverse. |
| P12L.PackedUnpacked | uca-phantom-camera.c:547-553 | Packing the unpacked pixels gives back exactly the words read: unpacking loses no bit. |
| P12L.UnpackedPacked | uca-phantom-camera.c:547-553 | Unpacking the packed words gives back every 12-bit pixel. |
| P12L.UnpackedBelow4096 | uca-phantom-camera.c:562-592 | Every unpacked pixel is below 4096. |
| P12L.GroupLocality | uca-phantom-camera.c:557-560 | Output pixels 8k..8k+7 depend only on input words 3k..3k+2. |
| P12L.UnpackedReadsPrefix | uca-phantom-camera.c:557-560 | Unpacking g groups reads no word beyond index 3g-1. |
| Protocol.EncodeDecode | uca-phantom-camera.c:307 | Every request line the plugin writes reads back as the request it came from; a `set` name holds no space. |
| Protocol.EncodeInjective | uca-phantom-camera.c:371 | Two different well-formed requests never produce the same line. |
| Protocol.DecodeSet | uca-phantom-camera.c:371 | A `set name value` line reads back as its name and value. |
| Protocol.DecodeImg | uca-phantom-camera.c:607-623 | The `img` request of either format reads back as that format. |
| Protocol.StrNCaseCmpZero | uca-phantom-camera.c:216 | Against a pattern without a NUL, `g_ascii_strncasecmp` is zero exactly when the first n characters match ignoring ASCII case. |
| Protocol.StrToBooleanIff | uca-phantom-camera.c:213-217 | `str_to_boolean` is true exactly when the string has at least four characters spelling "true" in any case. |
| Protocol.StrToBooleanExamples | uca-phantom-camera.c:213-217 | "TRUEish", "true" and "True" are true; "tru", "false" and "" are false. |
| Protocol.CString | uca-phantom-camera.c:297 | The C string of a buffer ends right before its first NUL and holds no NUL. |
| Protocol.TalkAsWritten | uca-phantom-camera.c:255-297 | As written, talk returns a buffer exactly when the write succeeded and the read returned anything but 0, and that buffer has the bytes read over its front. It returns NULL for a failed write, and for a read of 0 bytes when the caller gave an error location. A read of 0 bytes without one dereferences the NULL error. |
| Protocol.EndOfStreamCrash | uca-phantom-camera.c:271-276 | At the end of the stream, talk as written crashes when no error location was given and returns NULL when one was. The intended talk gives no reply. |
| Protocol.ReadErrorAccepted | uca-phantom-camera.c:274 | A read error (-1) yields a reply as written and none as intended. |
| Protocol.FullReplyUnterminated | uca-phantom-camera.c:271-274 | As written, a 512-byte reply leaves the buffer without any NUL. |
| Protocol.Talk | uca-phantom-camera.c:255-297 | A reply exactly when the request was written and at least one byte was read. Its C string is the bytes read up to their first NUL, and it carries an error text exactly when that string starts with `ERR: `, the text being everything after the prefix. |
| Protocol.ErrorMessage | uca-phantom-camera.c:288-291 | The reported error text is the reply without its five-character `ERR: ` prefix. |
| Protocol.StripReply | uca-phantom-camera.c:313-317 | In place: the buffer's C string becomes its old C string cut before the first `'\r'`. |
| Protocol.CleanReply | uca-phantom-camera.c:300-322 | A reply exactly when the intended talk gives one: the request was written and at least one byte was read. It holds no `'\r'` or NUL, is a prefix of the bytes read, and equals them when they hold neither. |
| Protocol.GetStringByName | uca-phantom-camera.c:300-322 | Sends `get name\r\n`. Returns the cleaned reply when the intended talk, reading at most 511 bytes, gives one, and nothing otherwise. |
| Properties.FindFrom | uca-phantom-camera.c:233-238 | The first row from i before the sentinel with the id; none exactly when no such row has it. |
| Properties.LookupById | uca-phantom-camera.c:230-239 | The loop that walks the table up to its NULL-named row returns exactly the first matching row, or none. |
| Properties.VariablesSentinel | uca-phantom-camera.c:153-184 | Row 29 of the table is the NULL sentinel, and every row before it has a name. |
| Properties.TableOmitsPluginIds | uca-phantom-camera.c:153-184 | No named row carries image-format, sensor-bitdepth, has-streaming or has-camram-recording. |
| Properties.PluginIdsAbsent | uca-phantom-camera.c:153-184 | Lookup of image-format and of sensor-bitdepth gives NULL. |
| Properties.CapabilityIdsAbsent | uca-phantom-camera.c:153-184 | Lookup of has-streaming and of has-camram-recording gives NULL. |
| Properties.FrameDelayRow | uca-phantom-camera.c:174 | Lookup of frame-delay finds the row of `cam.frdelay`. |
| Properties.NumCinesRow | uca-phantom-camera.c:175 | Lookup of num-cines finds the row of `cam.cines`. |
| Properties.ExposureTimeRow | uca-phantom-camera.c:177 | Lookup of exposure-time finds the row of `defc.exp`. |
| Properties.ManualRowFields | uca-phantom-camera.c:174-177 | `cam.frdelay`, `cam.cines` and `defc.exp` are read-write and not handled automatically. |
| Camera.Row | uca-phantom-camera.c:230-239 | The row found carries a name and the id. There is no row exactly when no row before the sentinel has the id. |
| Camera.SetOnlyWritable | uca-phantom-camera.c:361-375 | A `set` is only ever sent for a writable row and names that row's variable. An automatic writable variable always gets its `set`. |
| Camera.FormatRoundTrip | uca-phantom-camera.c:701-702 | In a table without an image-format row, setting image-format and getting it gives back the format set, and neither sends a request. |
| Camera.SetThenGetFormat | uca-phantom-camera.c:749-750 | The same round trip holds for the plugin's own table. |
| Camera.FormatOnlyByImageFormat | uca-phantom-camera.c:689-704 | Setting any other id leaves the format unchanged. |
| Camera.LocalAnswers | uca-phantom-camera.c:724-757 | Without table rows for them, sensor-bitdepth reads 12, has-streaming false and has-camram-recording true, with no request sent. |
| Camera.PluginAnswers | uca-phantom-camera.c:725-757 | The same three answers hold for the plugin's table. |
| Camera.PluginTableDispatchable | uca-phantom-camera.c:728-748 | The plugin's table holds a row for each id that get_property reads by hand, so `var` is never NULL there. |
| Camera.ManualVariable | uca-phantom-camera.c:689-748 | For a variable that is not automatic: get sends one `get` of its name; set sends a `set` only for exposure-time. The answer is nanoseconds for exposure-time and frame-delay, and the plain reply for num-cines. |
| Camera.ExposureTimeVariable | uca-phantom-camera.c:690-697 | exposure-time is set and read through `defc.exp`; it is read as nanoseconds. |
| Camera.FrameDelayVariable | uca-phantom-camera.c:730-739 | frame-delay is read from `cam.frdelay` as nanoseconds, and setting it sends nothing. |
| Camera.NumCinesVariable | uca-phantom-camera.c:740-748 | num-cines is read from `cam.cines`, and setting it sends nothing. |
| Camera.HalvesLossless | uca-phantom-camera.c:642 | The P16 memcpy loses nothing: each buffer word is the join of the two pixels it lands in. |
| Camera.GrabFitsBuffer | uca-phantom-camera.c:101-102 | MAX_BUFFER_SIZE is one 1024×976 frame of 16-bit pixels. The P12L decode of 1024·976 pixels fills exactly as many pixels as the P16 copy and reads within the buffer. |
| Camera.ZeroedBuffer | uca-phantom-camera.c:1106 | A fresh buffer of MAX_BUFFER_SIZE bytes, all zero. |
| Camera.PhantomCamera.constructor | uca-phantom-camera.c:1088-1106 | The camera starts in P12L, with an all-zero buffer and nothing sent. |
| Camera.PhantomCamera.SetString | uca-phantom-camera.c:361-375 | A read-only variable gets no request; otherwise exactly `set name value\r\n` is sent. |
| Camera.PhantomCamera.SetProperty | uca-phantom-camera.c:672-705 | The requests sent and the new format are those the dispatch functions give for the id: automatic variables and exposure-time are written through the table, image-format changes the format, anything else does nothing. |
| Camera.PhantomCamera.GetString | uca-phantom-camera.c:324-328 | Sends the variable's `get` request and returns the cleaned reply, when the intended talk gives one. |
| Camera.PhantomCamera.GetProperty | uca-phantom-camera.c:707-759 | Sends exactly the `get` the dispatch needs and returns the answer for the id, computed from the cleaned reply of the intended talk. |
| Camera.PhantomCamera.GetByHand | uca-phantom-camera.c:728-748 | For exposure-time, frame-delay and num-cines: sends the row's `get`, and returns the reply of the intended talk as nanoseconds or as is. |
| Camera.PhantomCamera.OwnValue | uca-phantom-camera.c:724-757 | The ids the plugin answers itself need no request. The answer is the same whatever any reply would have been. |
| Camera.PhantomCamera.StartRecording | uca-phantom-camera.c:388-399 | Sends `rec 1\r\n` and returns what the intended talk returns. |
| Camera.PhantomCamera.Trigger | uca-phantom-camera.c:658-670 | Sends `trig\r\n` and returns what the intended talk returns. |
| Camera.PhantomCamera.StopRecording | uca-phantom-camera.c:401-406 | Sends nothing and changes nothing. |
| Camera.PhantomCamera.Receive | uca-phantom-camera.c:455 | The words read overwrite the front of the frame buffer; the rest is kept. |
| Camera.PhantomCamera.CopyFrame | uca-phantom-camera.c:641-642 | The caller's 1024·976 pixels become the buffer's words split into 16-bit halves, low half first as on a little-endian host. |
| Camera.PhantomCamera.UnpackFrame | uca-phantom-camera.c:644-645 | The caller's 1024·976 pixels become the P12L unpacking of the buffer. |
| Camera.PhantomCamera.Decode | uca-phantom-camera.c:639-648 | The buffer is copied for P16 and unpacked for P12L; pixels beyond the frame are kept. |
| Camera.PhantomCamera.Grab | uca-phantom-camera.c:596-656 | Sends the `img` request for the selected format. Succeeds exactly when the intended talk gives that request a reply, and a failed grab changes neither the buffer nor the caller's pixels. On success the delivered frame fills the buffer and is decoded by format. |
| Discovery.RunEnd | uca-phantom-camera.c:874 | The end of the run of digits starting at i: every character before it is a digit, and the character at it is not. |
| Discovery.FirstMatch | uca-phantom-camera.c:876 | A match position found is in range and matches. None means no position from i matches. |
| Discovery.FirstMatchLeftmost | uca-phantom-camera.c:876 | The match found is the leftmost one. |
| Discovery.MatchAtIff | uca-phantom-camera.c:874-876 | The scanner's match at i holds exactly when `PH16 d1 d2 d3` with three non-empty digit runs is spelled at i. |
| Discovery.ReplyText | uca-phantom-camera.c:853-876 | The text the regex sees: at most 128 characters and no NUL. |
| Discovery.DecimalRoundTrip | uca-phantom-camera.c:883 | `atoi` of a number's decimal digits gives the number back. |
| Discovery.DiscoverSucceedsIff | uca-phantom-camera.c:870-885 | Discovery finds a port exactly when the reply text contains the pattern somewhere. |
| Discovery.DiscoverLeftmost | uca-phantom-camera.c:876-885 | When the pattern is spelled at i with nothing matching before it, the port is the first number at i, modulo 2^16. |
| Discovery.DiscoverAnnounced | uca-phantom-camera.c:874-885 | A reply `PH16 p a b` with p < 65536 discovers exactly port p. |
| Discovery.UntaggedReply | uca-phantom-camera.c:876-880 | A reply text without `PH16 ` anywhere gives NOT_FOUND. |
| Discovery.Discover | uca-phantom-camera.c:841-896 | A failed socket step gives an error. A reply without a match gives NOT_FOUND. Otherwise the port is the first matched number truncated to 16 bits. |
| Session.CreateArrayFrom | utils/test.py:62-68 | The element type is uint16 exactly when the sensor has more than 8 bits. The array is all zeros with shape (roi_height, roi_width), and the second result is the array's data address. |
| Session.ElementTypeFits | utils/test.py:66 | Up to 16 bits, the chosen element type holds every value of the sensor's depth, and uint16 is chosen only when uint8 cannot hold them. |
| Session.LogConfigLevels | utils/test.py:30-36 | DEBUG and ERROR map to their levels, and every other name, INFO included, maps to INFO. |
| Session.ScriptCamera.Perform | utils/test.py:98-126 | Each camera call is recorded in order. It returns unless it is the call that raises. |
| Session.Command | utils/test.py:81-126 | The log level comes from `LOG_CONFIG`. The camera receives the calls of `Steps` up to and including the first that raises, and no later one. The command completes exactly when none raises, and then holds the array `create_array_from` built. |
| Session.TenGigBeforeConnect | utils/test.py:102-108 | The interface and 10G settings are made exactly when `--xnetwork` is given, and always before connect. |
| Session.SingleGrab | utils/test.py:112-126 | There is exactly one grab, into the data address of the array; it comes after start_recording, and stop_recording comes last. |
| Session.NoFinally | utils/test.py:108-126 | stop_recording is called exactly when no call before it raised: the script has no try/finally. |
| Session.CommandAsWritten | utils/test.py:83 | As written, the command raises NameError on `loggisetng` before anything else. |
| Session.AsWrittenSkipsCamera | utils/test.py:83-98 | The intended command always makes at least one camera call, setting the network address verbatim. The as-written one makes none. |

## Left out

- The GObject type and class registration, the property specs and their installation are left out. So are `dispose`/`finalize` and the `UcaCamera` base class; they are outside the modelled core.
- Sockets, connection set-up and `bye` are not modelled. Each exchange is a value (`Protocol.Exchange`), and the discovery reply is a parameter.
- The accept thread and its message and result queues are not modelled. The read of a frame is the `frame` parameter of `Camera.PhantomCamera.Grab`.
- Camera.PhantomCamera.Grab: always succeeds once the `img` request got a reply, because the data thread always reports success whatever its read returned. The message pushed to the data thread before the request is not modelled. A short read's length is taken in whole words.
- `phantom_get`'s response regex, and the GValue transforms (`atoi`, `atof`, `str_to_boolean` casts) that turn a reply into a value, are left out. `Camera.GetResult` carries the cleaned reply instead. Only `str_to_boolean` itself is modelled.
- Float conversions are left out: the exposure-time nanoseconds text passed to set, and the division of an `atoi` result to seconds in get. They are floating point.
- Camera.PhantomCamera.GetByHand: does not model `atoi (NULL)` when the `get` failed; the source dereferences NULL there.
- Discovery.Discover: does not model `atoi` beyond INT_MAX, which is undefined in C. The port is the number modulo 2^16, as `guint16` keeps it.
- A 128-byte discovery datagram holding no NUL is not modelled faithfully: the source's regex reads past the buffer. The model stops at 128 characters.
- GRegex's `\d` is taken as the ASCII digits 0-9. The remote address of the discovery reply, which the result pairs with the port, is not modelled.
- The discovery clean-up paths are not modelled: unref of a never-initialised regex when the socket fails, and leaked objects when send or receive fail.
- `phantom_set_string`'s 256-byte stack reply buffer and the reply it receives are not modelled; the set request is sent and its answer dropped. The only path that passes that buffer to `g_free` is a read of 0 bytes, and with no error location talk dereferences NULL before it gets there (`Protocol.EndOfStreamCrash`).
- Protocol.GetStringByName: is built on the intended talk (`Protocol.Talk`), not on the as-written one. A read error (-1) gives no reply here, where the source returns the zero-filled buffer as the reply. A read of 0 bytes gives no reply here, where the source dereferences NULL. At most 511 bytes are read, where the source reads up to 512.
- Protocol.CleanReply: describes the reply of the intended talk, with the same three differences as `Protocol.GetStringByName`.
- Camera.PhantomCamera.GetString: uses the intended talk, as `Protocol.GetStringByName` does.
- Camera.PhantomCamera.GetProperty: uses the intended talk, as `Protocol.GetStringByName` does.
- Camera.PhantomCamera.GetByHand: uses the intended talk, as `Protocol.GetStringByName` does.
- Camera.PhantomCamera.StartRecording: uses the intended talk. A read error (-1) gives no reply here, where the source takes the buffer as a reply. At most 511 bytes are read.
- Camera.PhantomCamera.Trigger: uses the intended talk, with the same differences as `Camera.PhantomCamera.StartRecording`.
- Camera.PhantomCamera.Grab: uses the intended talk for the `img` request. A read error (-1) makes the grab fail here, where the source goes on to decode the frame.
- Camera.PhantomCamera.CopyFrame: assumes a little-endian host. The memcpy puts each word's low 16 bits first (`Camera.Half`); a big-endian host would put the high half first.
- The response-pattern compile error in init and the registration of `frame-delay`'s unit are left out.
- In `utils/test.py`, the following are outside the model:
  - the `click` option parsing;
  - the PluginManager lookup of the camera;
  - the `logging.basicConfig` call itself;
  - the `defaultdict` adding the looked-up key;
  - the matplotlib display.
- Session.Command: the camera's answers to the bitdepth and ROI queries are fields of the abstract camera, and the array's data address is a parameter. A raising camera call is recorded as made.

## Findings

| source | as written | input that shows it | evidently intended | confidence | as-written member | corrected member |
|---|---|---|---|---|---|---|
| utils/test.py:83 | The first statement calls `loggisetng.basicConfig`, a name that is not defined. | Any invocation of the command. | `logging.basicConfig`: configure logging, then drive the camera. | not executed | Session.CommandAsWritten | Session.Command |
| uca-phantom-camera.c:274 | The read result is tested with `!`, so an error (-1) passes as a reply. | The write succeeds and the read returns -1. | Only a read of at least one byte is a reply. | not executed | Protocol.ReadErrorAccepted | Protocol.Talk |
| uca-phantom-camera.c:274-276 | A read of 0 bytes at the end of the stream sets no error, yet the warning for a failed read prints `error->message` when the caller gave no error location, as `phantom_get_string_by_name` and `phantom_set_string` do. | The write succeeds and the camera closes the connection, so the read returns 0. | Return NULL without reading the missing error. | not executed | Protocol.EndOfStreamCrash | Protocol.Talk |
| uca-phantom-camera.c:271-274 | The read may fill all 512 bytes of the reply buffer, leaving no terminating NUL for the string functions that follow. | The camera sends 512 non-NUL bytes. | Read at most 511 bytes, so the reply stays a C string. | not executed | Protocol.FullReplyUnterminated | Protocol.Talk |

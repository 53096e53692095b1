/**
 * The text protocol the plugin speaks with the camera over its control
 * connection: the request lines it writes, the C strings it reads back,
 * `phantom_talk`'s handling of a reply, the reply clean-up of
 * `phantom_get_string_by_name` and `str_to_boolean`.
 *
 * The socket itself is not modelled: one exchange is described by an
 * `Exchange` value that says whether the request was written, what
 * `g_input_stream_read` returned and which bytes it delivered.
 */
module Protocol {
  import opened Wrappers

  const NUL: char := '\0'
  const CR: char := '\r'

  /** The two pixel formats the plugin can ask the camera for (its `ImageFormat` enum). */
  datatype ImageFormat = FormatP16 | FormatP12L

  /** The name the `img` request gives each format. */
  function FormatName(f: ImageFormat): string
  {
    match f
    case FormatP16 => "P16"
    case FormatP12L => "P12L"
  }

  /** The requests the plugin writes: `get`, `set`, `rec 1`, `trig` and the `img` request of a grab. */
  datatype Request = Get(name: string) | Set(name: string, value: string) | Rec | Trig | Img(format: ImageFormat)

  /** The fixed part of the `img` request up to the format name. */
  const ImgPrefix: string := "img {cine:1, start:1, cnt:100, fmt:"

  /** The request line as the plugin formats it. */
  function Encode(req: Request): string
  {
    match req
    case Get(name) => "get " + name + "\r\n"
    case Set(name, value) => "set " + name + " " + value + "\r\n"
    case Rec => "rec 1\r\n"
    case Trig => "trig\r\n"
    case Img(f) => ImgPrefix + FormatName(f) + "}\r\n"
  }

  /** A request whose line can be read back: the name of a `set` holds no space, so the first space after it ends it. */
  predicate WellFormed(req: Request)
  {
    req.Set? ==> ' ' !in req.name
  }

  /** The part of `s` before the first `c`, or all of `s` when there is none (what `strchr` and a `'\0'` cut leave). */
  function PrefixBefore(s: string, c: char): (p: string)
    ensures |p| <= |s| && p == s[..|p|]
    ensures c !in p
    ensures |p| < |s| ==> s[|p|] == c
  {
    if s == [] || s[0] == c then [] else [s[0]] + PrefixBefore(s[1..], c)
  }

  /** Reads a request line back: the inverse of Encode on well-formed requests. */
  function Decode(line: string): (r: Option<Request>)
  {
    if |line| < 2 || line[|line| - 2..] != "\r\n" then None
    else
      var body := line[..|line| - 2];
      if body == "rec 1" then Some(Rec)
      else if body == "trig" then Some(Trig)
      else if |body| >= 4 && body[..4] == "get " then Some(Get(body[4..]))
      else if |body| >= 4 && body[..4] == "set " then
        var name := PrefixBefore(body[4..], ' ');
        if |name| == |body| - 4 then None else Some(Set(name, body[4 + |name| + 1..]))
      else if body == ImgPrefix + "P16}" then Some(Img(FormatP16))
      else if body == ImgPrefix + "P12L}" then Some(Img(FormatP12L))
      else None
  }

  /** Cutting `a + [c] + b` at the first `c` leaves `a` when `a` holds no `c`. */
  lemma {:induction false} PrefixBeforeJoin(a: string, c: char, b: string)
    requires c !in a
    ensures PrefixBefore(a + [c] + b, c) == a
  {
    if a != [] {
      assert (a + [c] + b)[1..] == a[1..] + [c] + b;
      PrefixBeforeJoin(a[1..], c, b);
    }
  }

  /** A `get` line reads back as the same `get` request. */
  lemma DecodeGet(name: string)
    ensures Decode(Encode(Get(name))) == Some(Get(name))
  {
    var line := Encode(Get(name));
    assert line[|line| - 2..] == "\r\n";
    var body := line[..|line| - 2];
    assert body == "get " + name;
    assert body[0] == 'g';
    assert body[..4] == "get ";
  }

  /** A `set` line whose name holds no space reads back as the same `set` request. */
  lemma DecodeSet(name: string, value: string)
    requires ' ' !in name
    ensures Decode(Encode(Set(name, value))) == Some(Set(name, value))
  {
    var line := Encode(Set(name, value));
    assert line[|line| - 2..] == "\r\n";
    var body := line[..|line| - 2];
    assert body == "set " + name + " " + value;
    assert body[0] == 's';
    assert body[..4] == "set ";
    assert body[4..] == name + [' '] + value;
    PrefixBeforeJoin(name, ' ', value);
    assert body[4 + |name| + 1..] == value;
  }

  /** An `img` line reads back as the same `img` request. */
  lemma DecodeImg(f: ImageFormat)
    ensures Decode(Encode(Img(f))) == Some(Img(f))
  {
    var line := Encode(Img(f));
    assert line[|line| - 2..] == "\r\n";
    var body := line[..|line| - 2];
    assert body == ImgPrefix + FormatName(f) + "}";
    assert body[0] == 'i';
  }

  /** Every well-formed request line reads back as the request written: the line format is unambiguous. */
  lemma EncodeDecode(req: Request)
    requires WellFormed(req)
    ensures Decode(Encode(req)) == Some(req)
  {
    match req
    case Get(name) => DecodeGet(name);
    case Set(name, value) => DecodeSet(name, value);
    case Rec =>
      var line := Encode(req);
      assert line[..|line| - 2] == "rec 1";
    case Trig =>
      var line := Encode(req);
      assert line[..|line| - 2] == "trig";
    case Img(f) => DecodeImg(f);
  }

  /** Two well-formed requests with the same line are the same request. */
  lemma EncodeInjective(a: Request, b: Request)
    requires WellFormed(a) && WellFormed(b) && Encode(a) == Encode(b)
    ensures a == b
  {
    EncodeDecode(a);
    EncodeDecode(b);
  }

  /** `g_ascii_tolower`: upper-case ASCII letters become lower case, every other character is kept. */
  function AsciiLower(c: char): (l: char)
    ensures 'A' <= c <= 'Z' ==> 'a' <= l <= 'z' && l as int == c as int + 32
    ensures !('A' <= c <= 'Z') ==> l == c
  {
    if 'A' <= c <= 'Z' then (c as int + 32) as char else c
  }

  /** The character at the front of a C string, its terminating `'\0'` when the string is used up. */
  function Head(s: string): char
  {
    if s == [] then NUL else s[0]
  }

  /**
   * `g_ascii_strncasecmp`: compares at most `n` characters of `s1` and `s2`
   * ignoring ASCII case and stops at the end of either string; zero means equal.
   */
  function StrNCaseCmp(s1: string, s2: string, n: nat): int
    decreases n
  {
    if n == 0 then 0
    else if s1 == [] || s2 == [] then Head(s1) as int - Head(s2) as int
    else if AsciiLower(s1[0]) != AsciiLower(s2[0]) then AsciiLower(s1[0]) as int - AsciiLower(s2[0]) as int
    else StrNCaseCmp(s1[1..], s2[1..], n - 1)
  }

  /** The first `n` characters of `s` match those of `t` ignoring ASCII case, and `s` has that many. */
  predicate CaseEqualPrefix(s: string, t: string, n: nat)
    requires n <= |t|
  {
    n <= |s| && forall k :: 0 <= k < n ==> AsciiLower(s[k]) == AsciiLower(t[k])
  }

  /** Against a pattern of at least `n` characters with no `'\0'`, strncasecmp is zero exactly when the first `n` characters match. */
  lemma {:induction false} StrNCaseCmpZero(s: string, t: string, n: nat)
    requires n <= |t| && NUL !in t
    ensures StrNCaseCmp(s, t, n) == 0 <==> CaseEqualPrefix(s, t, n)
  {
    if n > 0 {
      assert t[0] != NUL;
      if s != [] && AsciiLower(s[0]) == AsciiLower(t[0]) {
        assert NUL !in t[1..] by {
          forall k | 0 <= k < |t| - 1 ensures t[1..][k] != NUL { assert t[1..][k] == t[k + 1]; }
        }
        StrNCaseCmpZero(s[1..], t[1..], n - 1);
        if CaseEqualPrefix(s[1..], t[1..], n - 1) {
          forall k | 0 <= k < n ensures AsciiLower(s[k]) == AsciiLower(t[k]) {
            if k > 0 { assert s[1..][k - 1] == s[k] && t[1..][k - 1] == t[k]; }
          }
        }
        if CaseEqualPrefix(s, t, n) {
          forall k | 0 <= k < n - 1 ensures AsciiLower(s[1..][k]) == AsciiLower(t[1..][k]) {
            assert s[1..][k] == s[k + 1] && t[1..][k] == t[k + 1];
          }
        }
      } else if s != [] {
        assert !CaseEqualPrefix(s, t, n) by { assert AsciiLower(s[0]) != AsciiLower(t[0]); }
      } else {
        assert AsciiLower(t[0]) != NUL;
      }
    }
  }

  /** `str_to_boolean`: the reply means TRUE when it starts with "true" in any letter case. */
  function StrToBoolean(s: string): bool
  {
    StrNCaseCmp(s, "true", 4) == 0
  }

  /** str_to_boolean is true exactly when `s` has at least four characters that spell "true" ignoring case. */
  lemma StrToBooleanIff(s: string)
    ensures StrToBoolean(s) <==>
      |s| >= 4 && AsciiLower(s[0]) == 't' && AsciiLower(s[1]) == 'r' && AsciiLower(s[2]) == 'u' && AsciiLower(s[3]) == 'e'
  {
    StrNCaseCmpZero(s, "true", 4);
    if |s| >= 4 && AsciiLower(s[0]) == 't' && AsciiLower(s[1]) == 'r' && AsciiLower(s[2]) == 'u' && AsciiLower(s[3]) == 'e' {
      assert CaseEqualPrefix(s, "true", 4);
    }
  }

  /** Only the first four characters matter: "TRUEish" counts as true, "tru" and "false" do not. */
  lemma StrToBooleanExamples()
    ensures StrToBoolean("TRUEish") && StrToBoolean("true") && StrToBoolean("True")
    ensures !StrToBoolean("tru") && !StrToBoolean("false") && !StrToBoolean("")
  {
    StrToBooleanIff("TRUEish");
    StrToBooleanIff("true");
    StrToBooleanIff("True");
    StrToBooleanIff("tru");
    StrToBooleanIff("false");
    StrToBooleanIff("");
  }

  /** The C string a buffer holds: its characters up to the first `'\0'`, which must be there. */
  function CString(buf: seq<char>): (s: string)
    requires NUL in buf
    ensures |s| < |buf| && s == buf[..|s|] && buf[|s|] == NUL
    ensures NUL !in s
  {
    if buf[0] == NUL then [] else [buf[0]] + CString(buf[1..])
  }

  /** A buffer whose first `'\0'` is at index i holds the C string buf[..i]. */
  lemma {:induction false} CStringAt(buf: seq<char>, i: nat)
    requires i < |buf| && buf[i] == NUL && NUL !in buf[..i]
    ensures CString(buf) == buf[..i]
  {
    if i > 0 {
      assert buf[0] in buf[..i];
      assert buf[1..][..i - 1] == buf[1..i];
      assert NUL !in buf[1..][..i - 1] by {
        forall k | 0 <= k < i - 1 ensures buf[1..][k] != NUL { assert buf[1..][k] == buf[..i][k + 1]; }
      }
      CStringAt(buf[1..], i - 1);
      assert buf[..i] == [buf[0]] + buf[1..][..i - 1];
    }
  }

  /** `g_str_has_prefix (reply, "ERR: ")`: the camera reports an error. */
  predicate HasErrPrefix(reply: string)
  {
    |reply| >= 5 && reply[..5] == "ERR: "
  }

  /** The error text the plugin reports for an `ERR: ` reply: everything after the five-character prefix. */
  function ErrorMessage(reply: string): (m: string)
    requires HasErrPrefix(reply)
    ensures "ERR: " + m == reply
  {
    reply[5..]
  }

  /** The reply buffer `phantom_talk` allocates when the caller gives none (`g_malloc0 (512)`). */
  const ReplySize: nat := 512

  /**
   * One exchange on the control connection: whether `g_output_stream_write_all`
   * wrote the request, what `g_input_stream_read` returned (-1 for an error, 0 at
   * the end of the stream, otherwise the number of bytes) and those bytes.
   */
  datatype Exchange = Exchange(written: bool, readCount: int, data: seq<char>)

  /** The read returned what it delivered, and delivered at most `capacity` bytes. */
  predicate Delivered(e: Exchange, capacity: nat)
  {
    e.readCount >= -1 &&
    (e.readCount > 0 ==> |e.data| == e.readCount && |e.data| <= capacity) &&
    (e.readCount <= 0 ==> e.data == [])
  }

  /** The reply buffer after the read: the bytes read over the front of what the buffer held before. */
  function Overlay(initial: seq<char>, data: seq<char>): (buf: seq<char>)
    requires |data| <= |initial|
    ensures |buf| == |initial| && buf[..|data|] == data && buf[|data|..] == initial[|data|..]
  {
    data + initial[|data|..]
  }

  /**
   * How `phantom_talk` as written ends: it returns a buffer or NULL, or it
   * dereferences the NULL `error` to print the warning for a failed read.
   */
  datatype TalkOutcome = Returned(reply: Option<seq<char>>) | NullDereference

  /**
   * `phantom_talk` as written: a failed write gives NULL; the read result is
   * tested with `!`, so only a read of 0 bytes counts as a failure and an error
   * (-1) returns the buffer as if a reply had come; up to the whole buffer is
   * read, leaving no room for a terminating `'\0'`. A read of 0 bytes at the end
   * of the stream sets no error, so when the caller passed no `error_loc`
   * (`hasErrorLoc` false) the warning reads the message of a NULL error.
   */
  function TalkAsWritten(e: Exchange, initial: seq<char>, hasErrorLoc: bool): (r: TalkOutcome)
    requires Delivered(e, |initial|)
    ensures r.NullDereference? <==> e.written && e.readCount == 0 && !hasErrorLoc
    ensures r == Returned(None) <==> !e.written || (e.readCount == 0 && hasErrorLoc)
    ensures r.Returned? && r.reply.Some? ==> e.readCount != 0 && r.reply.value == Overlay(initial, e.data)
  {
    if !e.written then Returned(None)
    else if e.readCount == 0 then (if hasErrorLoc then Returned(None) else NullDereference)
    else Returned(Some(Overlay(initial, e.data)))
  }

  /** The reply `phantom_talk` returns: the buffer, and the error text when it starts with `ERR: `. */
  datatype Reply = Reply(buffer: seq<char>, error: Option<string>)

  /** The reply buffer with the bytes read and a terminating `'\0'` right after them. */
  function Terminated(initial: seq<char>, data: seq<char>): (buf: seq<char>)
    requires |data| < |initial|
    ensures |buf| == |initial| && buf[..|data|] == data && buf[|data|] == NUL
  {
    data + [NUL] + initial[|data| + 1..]
  }

  /**
   * `phantom_talk` as intended: NULL unless the request was written and the
   * read delivered at least one byte; at most |initial| - 1 bytes are read and
   * terminated; an `ERR: ` reply carries its error text.
   */
  function Talk(e: Exchange, initial: seq<char>): (r: Option<Reply>)
    requires |initial| > 0 && Delivered(e, |initial| - 1)
    ensures r.Some? <==> e.written && e.readCount > 0
    ensures r.Some? ==> NUL in r.value.buffer && CString(r.value.buffer) == PrefixBefore(e.data, NUL)
    ensures r.Some? ==> (r.value.error.Some? <==> HasErrPrefix(CString(r.value.buffer)))
    ensures r.Some? && r.value.error.Some? ==> "ERR: " + r.value.error.value == CString(r.value.buffer)
  {
    if !e.written || e.readCount <= 0 then None
    else
      var buf := Terminated(initial, e.data);
      var reply := CString(buf);
      assert reply == PrefixBefore(e.data, NUL) by { TerminatedCString(initial, e.data); }
      Some(Reply(buf, if HasErrPrefix(reply) then Some(ErrorMessage(reply)) else None))
  }

  /** The C string of a terminated buffer is the bytes read up to their first `'\0'`. */
  lemma TerminatedCString(initial: seq<char>, data: seq<char>)
    requires |data| < |initial|
    ensures CString(Terminated(initial, data)) == PrefixBefore(data, NUL)
  {
    var buf, p := Terminated(initial, data), PrefixBefore(data, NUL);
    assert buf[..|p|] == p by { assert buf[..|data|][..|p|] == data[..|p|]; }
    CStringAt(buf, |p|);
  }

  /** A read error is taken for a reply by phantom_talk as written, and the intended version refuses it. */
  lemma ReadErrorAccepted()
    ensures var e, initial := Exchange(true, -1, []), seq(ReplySize, _ => NUL);
      TalkAsWritten(e, initial, false) == Returned(Some(initial)) && Talk(e, initial).None?
  {
  }

  /** A reply that fills the 512-byte buffer leaves it without a terminating `'\0'` in phantom_talk as written. */
  lemma FullReplyUnterminated()
    ensures var e, initial := Exchange(true, ReplySize, seq(ReplySize, _ => 'A')), seq(ReplySize, _ => NUL);
      Delivered(e, |initial|) && TalkAsWritten(e, initial, false).Returned? &&
      TalkAsWritten(e, initial, false).reply.Some? && NUL !in TalkAsWritten(e, initial, false).reply.value
  {
    var e, initial := Exchange(true, ReplySize, seq(ReplySize, _ => 'A')), seq(ReplySize, _ => NUL);
    var buf := TalkAsWritten(e, initial, false).reply.value;
    assert buf == e.data;
    forall k | 0 <= k < |buf| ensures buf[k] != NUL { assert buf[k] == 'A'; }
  }

  /**
   * The end of the stream crashes phantom_talk as written when the caller
   * passed no `error_loc`, as `phantom_get_string_by_name` and
   * `phantom_set_string` do; with an `error_loc` it gives NULL, and the
   * intended version gives no reply either way.
   */
  lemma EndOfStreamCrash()
    ensures var e, initial := Exchange(true, 0, []), seq(ReplySize, _ => NUL);
      TalkAsWritten(e, initial, false).NullDereference? &&
      TalkAsWritten(e, initial, true) == Returned(None) && Talk(e, initial).None?
  {
  }

  /**
   * The reply clean-up of `phantom_get_string_by_name`: `strchr` finds the
   * first `'\r'` of the C string and a `'\0'` is written over it, in place.
   */
  method StripReply(buf: array<char>)
    requires NUL in buf[..]
    modifies buf
    ensures NUL in buf[..] && CString(buf[..]) == PrefixBefore(CString(old(buf[..])), CR)
  {
    ghost var s := CString(buf[..]);
    var i := 0;
    while buf[i] != NUL && buf[i] != CR
      invariant i <= |s| && s == buf[..|s|] && buf[|s|] == NUL
      invariant forall k :: 0 <= k < i ==> buf[k] != CR
      decreases |s| - i
    {
      i := i + 1;
    }
    ghost var p := PrefixBefore(s, CR);
    PrefixBeforeAt(s, CR, i);
    if buf[i] == CR {
      buf[i] := NUL;
      assert buf[..i] == s[..i];
      CStringAt(buf[..], i);
    } else {
      assert i == |s|;
    }
  }

  /** When s[..i] holds no `c` and s[i] is `c` (or i is the end of s), the part before the first `c` is s[..i]. */
  lemma {:induction false} PrefixBeforeAt(s: string, c: char, i: nat)
    requires i <= |s| && (i < |s| ==> s[i] == c)
    requires forall k :: 0 <= k < i ==> s[k] != c
    ensures PrefixBefore(s, c) == s[..i]
  {
    if i > 0 {
      PrefixBeforeAt(s[1..], c, i - 1);
      assert s[..i] == [s[0]] + s[1..][..i - 1];
    }
  }

  /**
   * The reply `phantom_get_string_by_name` hands back for an exchange: nothing
   * when phantom_talk gave NULL, otherwise the text read, up to its first
   * `'\0'` and then up to its first `'\r'`.
   */
  function CleanReply(e: Exchange): (r: Option<string>)
    ensures r.Some? <==> e.written && e.readCount > 0
    ensures r.Some? ==> CR !in r.value && NUL !in r.value && r.value <= e.data
    ensures r.Some? && CR !in e.data && NUL !in e.data ==> r.value == e.data
  {
    if e.written && e.readCount > 0 then
      var text := PrefixBefore(e.data, NUL);
      var line := PrefixBefore(text, CR);
      assert NUL !in line by { assert line <= text; }
      Some(line)
    else None
  }

  /**
   * `phantom_get_string_by_name`: sends the `get` request, and returns the
   * reply cut at its first `'\r'`, or nothing when phantom_talk gave NULL.
   */
  method GetStringByName(name: string, e: Exchange) returns (request: string, reply: Option<string>)
    requires Delivered(e, ReplySize - 1)
    ensures request == Encode(Get(name))
    ensures reply == CleanReply(e)
  {
    request := Encode(Get(name));
    var initial := seq(ReplySize, _ => NUL);
    var talk := Talk(e, initial);
    if talk == None {
      reply := None;
    } else {
      var raw := talk.value.buffer;
      var buf := new char[|raw|](k requires 0 <= k < |raw| => raw[k]);
      assert buf[..] == raw;
      StripReply(buf);
      reply := Some(CString(buf[..]));
    }
  }
}

/**
 * The reply parse of `phantom_discover` in uca-phantom-camera.c: the camera
 * answers the broadcast `phantom?` with a datagram that names its control
 * port as `PH16 <port> <d> <d>`. The regex `PH16 (\d+) (\d+) (\d+)` is written
 * out here as the scan it amounts to; the port is `atoi` of its first group,
 * narrowed to the 16 bits of a socket port.
 */
module Discovery {
  import opened Wrappers
  import opened Protocol

  /** `gchar reply[128]`, zero-filled, which the reply datagram is received into. */
  const ReplyBufferSize: nat := 128

  /** The fixed text the regex starts with. */
  const Tag: string := "PH16 "

  /** Why discovery produced no address. */
  datatype DiscoveryError =
    | SocketError   // the socket could not be made, or the send or the receive failed
    | NotFound      // UCA_CAMERA_ERROR_NOT_FOUND: the reply does not match

  /** `\d`: an ASCII decimal digit. */
  predicate IsDigit(c: char)
  {
    '0' <= c <= '9'
  }

  predicate AllDigits(s: string)
  {
    forall k :: 0 <= k < |s| ==> IsDigit(s[k])
  }

  /** What `\d+` matches: one or more digits. */
  predicate Digits(s: string)
  {
    |s| > 0 && AllDigits(s)
  }

  /** The end of the run of digits that starts at `i`. */
  function RunEnd(s: string, i: nat): (j: nat)
    requires i <= |s|
    ensures i <= j <= |s|
    ensures forall k :: i <= k < j ==> IsDigit(s[k])
    ensures j < |s| ==> !IsDigit(s[j])
    decreases |s| - i
  {
    if i < |s| && IsDigit(s[i]) then RunEnd(s, i + 1) else i
  }

  /** The tag occurs at `i`. */
  predicate TagAt(s: string, i: nat)
  {
    i + |Tag| <= |s| && s[i..i + |Tag|] == Tag
  }

  /**
   * The regex matches at `i`: the tag, then three runs of digits separated by
   * single spaces. A `\d+` followed by a space can only take the whole run of
   * digits, so each group is the maximal run.
   */
  predicate MatchAt(s: string, i: nat)
  {
    TagAt(s, i) &&
    var e1 := RunEnd(s, i + |Tag|);
    e1 > i + |Tag| && e1 < |s| && s[e1] == ' ' &&
    var e2 := RunEnd(s, e1 + 1);
    e2 > e1 + 1 && e2 < |s| && s[e2] == ' ' &&
    RunEnd(s, e2 + 1) > e2 + 1
  }

  /** `g_match_info_fetch (info, 1)`: the first group of the match at `i`. */
  function Group1(s: string, i: nat): (d: string)
    requires MatchAt(s, i)
    ensures Digits(d)
  {
    s[i + |Tag|..RunEnd(s, i + |Tag|)]
  }

  /** A text the regex matches as a whole, given its three groups. */
  function Candidate(d1: string, d2: string, d3: string): string
  {
    Tag + d1 + " " + d2 + " " + d3
  }

  /** The text holds `c` starting at `i`. */
  predicate Spells(s: string, i: nat, c: string)
  {
    i + |c| <= |s| && s[i..i + |c|] == c
  }

  /** The regex's meaning, independent of the scan: some three digit groups spell a match starting at `i`. */
  ghost predicate PatternAt(s: string, i: nat)
  {
    exists d1, d2, d3 {:trigger Candidate(d1, d2, d3)} :: Digits(d1) && Digits(d2) && Digits(d3) && Spells(s, i, Candidate(d1, d2, d3))
  }

  /** The leftmost position from `i` on where the regex matches: where `g_regex_match` finds its match. */
  function FirstMatch(s: string, i: nat): (r: Option<nat>)
    requires i <= |s|
    ensures r.Some? ==> i <= r.value < |s| && MatchAt(s, r.value)
    ensures r.None? ==> forall j :: i <= j <= |s| ==> !MatchAt(s, j)
    decreases |s| - i
  {
    if i == |s| then None
    else if MatchAt(s, i) then Some(i)
    else FirstMatch(s, i + 1)
  }

  /** The match FirstMatch finds is the leftmost one: there is none before it. */
  lemma {:induction false} FirstMatchLeftmost(s: string, i: nat)
    requires i <= |s|
    ensures FirstMatch(s, i).Some? ==> forall j :: i <= j < FirstMatch(s, i).value ==> !MatchAt(s, j)
    decreases |s| - i
  {
    if i < |s| && !MatchAt(s, i) {
      FirstMatchLeftmost(s, i + 1);
    }
  }

  function DigitValue(c: char): nat
    requires IsDigit(c)
  {
    c as int - '0' as int
  }

  /** `atoi` of a string of digits. */
  function DecimalValue(d: string): nat
    requires AllDigits(d)
  {
    if |d| == 0 then 0 else 10 * DecimalValue(d[..|d| - 1]) + DigitValue(d[|d| - 1])
  }

  /** The decimal digits of `n`, as a camera writes its port. */
  function Decimal(n: nat): (d: string)
    ensures Digits(d)
  {
    if n < 10 then ['0' + n as char] else Decimal(n / 10) + ['0' + (n % 10) as char]
  }

  /** The text the regex is run on: the received bytes, at most the buffer's 128, up to the first `'\0'`. */
  function ReplyText(datagram: string): (text: string)
    ensures |text| <= ReplyBufferSize && NUL !in text
  {
    PrefixBefore(if |datagram| <= ReplyBufferSize then datagram else datagram[..ReplyBufferSize], NUL)
  }

  /**
   * `phantom_discover` from the received datagram on: the camera's control
   * port, or the error. `datagram` is None when the socket, the send or the
   * receive failed.
   */
  function Discover(datagram: Option<string>): (r: Result<nat, DiscoveryError>)
    ensures r.Success? ==> r.value < 0x1_0000
    ensures datagram.None? ==> r == Failure(SocketError)
  {
    match datagram
    case None => Failure(SocketError)
    case Some(d) =>
      var text := ReplyText(d);
      match FirstMatch(text, 0)
      case None => Failure(NotFound)
      case Some(i) => Success(DecimalValue(Group1(text, i)) % 0x1_0000)
  }

  /** A run of digits that ends where a non-digit (or the text) starts is the run RunEnd finds. */
  lemma {:induction false} RunEndAt(s: string, i: nat, j: nat)
    requires i <= j <= |s|
    requires forall k :: i <= k < j ==> IsDigit(s[k])
    requires j < |s| ==> !IsDigit(s[j])
    ensures RunEnd(s, i) == j
    decreases j - i
  {
    if i < j {
      RunEndAt(s, i + 1, j);
    }
  }

  /** Adjacent slices join into one. */
  lemma Slices(s: string, a: nat, b: nat, c: nat)
    requires a <= b <= c <= |s|
    ensures s[a..b] + s[b..c] == s[a..c]
  {
  }

  /** The tag and three groups cut from the text, with the spaces between them, are the text they were cut from. */
  lemma CutGroups(s: string, i: nat, e1: nat, e2: nat, e3: nat)
    requires i + |Tag| <= e1 < e2 < e3 <= |s|
    requires s[i..i + |Tag|] == Tag && s[e1] == ' ' && s[e2] == ' '
    ensures Candidate(s[i + |Tag|..e1], s[e1 + 1..e2], s[e2 + 1..e3]) == s[i..e3]
  {
    assert s[e1..e1 + 1] == " " && s[e2..e2 + 1] == " ";
    Slices(s, i, i + |Tag|, e1);
    Slices(s, i, e1, e1 + 1);
    Slices(s, i, e1 + 1, e2);
    Slices(s, i, e2, e2 + 1);
    Slices(s, i, e2 + 1, e3);
  }

  /** A match the scan finds is a match of the pattern. */
  lemma MatchIsPattern(s: string, i: nat)
    requires MatchAt(s, i)
    ensures PatternAt(s, i)
  {
    var e1 := RunEnd(s, i + |Tag|);
    var e2 := RunEnd(s, e1 + 1);
    var e3 := RunEnd(s, e2 + 1);
    CutGroups(s, i, e1, e2, e3);
    RunDigits(s, i + |Tag|);
    RunDigits(s, e1 + 1);
    RunDigits(s, e2 + 1);
    var d1, d2, d3 := s[i + |Tag|..e1], s[e1 + 1..e2], s[e2 + 1..e3];
    assert Digits(d1) && Digits(d2) && Digits(d3) && Spells(s, i, Candidate(d1, d2, d3));
  }

  /** The run RunEnd measures is made of digits. */
  lemma RunDigits(s: string, i: nat)
    requires i <= |s|
    ensures AllDigits(s[i..RunEnd(s, i)])
  {
    var j := RunEnd(s, i);
    forall k | 0 <= k < j - i
      ensures IsDigit(s[i..j][k])
    {
      assert s[i..j][k] == s[i + k];
    }
  }

  /** Where the tag, the groups and the two spaces sit in a candidate text. */
  lemma CandidateParts(d1: string, d2: string, d3: string)
    ensures var c := Candidate(d1, d2, d3);
      |c| == |Tag| + |d1| + |d2| + |d3| + 2 &&
      c[..|Tag|] == Tag && c[|Tag|..|Tag| + |d1|] == d1 && c[|Tag| + |d1|] == ' ' &&
      c[|Tag| + |d1| + 1..|Tag| + |d1| + 1 + |d2|] == d2 && c[|Tag| + |d1| + 1 + |d2|] == ' ' &&
      c[|Tag| + |d1| + |d2| + 2..] == d3
  {
    var c := Candidate(d1, d2, d3);
    var c1 := Tag + d1;
    var c3 := c1 + " " + d2;
    assert c == c3 + " " + d3;
    assert c[..|c1|] == c1 && c1[..|Tag|] == Tag && c1[|Tag|..] == d1;
    assert c[..|c3|] == c3 && c3[|c1| + 1..] == d2;
  }

  /** A slice of a slice is a slice. */
  lemma SliceOfSlice(s: string, i: nat, j: nat, a: nat, b: nat)
    requires i <= j <= |s| && a <= b <= j - i
    ensures s[i..j][a..b] == s[i + a..i + b]
  {
    forall k | 0 <= k < b - a
      ensures s[i..j][a..b][k] == s[i + a..i + b][k]
    {
    }
  }

  /** A run of digits the text holds at `i`, up to a non-digit at `j`, is where RunEnd stops. */
  lemma GroupEnd(s: string, i: nat, j: nat, d: string)
    requires i <= j < |s| && s[i..j] == d && AllDigits(d) && s[j] == ' '
    ensures RunEnd(s, i) == j
  {
    forall k | i <= k < j
      ensures IsDigit(s[k])
    {
      assert s[k] == s[i..j][k - i];
    }
    RunEndAt(s, i, j);
  }

  /** Where the pattern matches with groups d1, d2, d3, the scan matches too and its first group is d1. */
  lemma PatternIsMatch(s: string, i: nat, d1: string, d2: string, d3: string)
    requires Digits(d1) && Digits(d2) && Digits(d3) && Spells(s, i, Candidate(d1, d2, d3))
    ensures MatchAt(s, i) && Group1(s, i) == d1
  {
    var e1 := i + |Tag| + |d1|;
    var e2 := e1 + 1 + |d2|;
    SpellsHead(s, i, d1, d2, d3);
    SpellsTail(s, i, d1, d2, d3);
    GroupEnd(s, i + |Tag|, e1, d1);
    GroupEnd(s, e1 + 1, e2, d2);
  }

  /** Where a candidate is spelt in the text, the text holds its tag and first group, then a space. */
  lemma SpellsHead(s: string, i: nat, d1: string, d2: string, d3: string)
    requires Spells(s, i, Candidate(d1, d2, d3))
    ensures var e1 := i + |Tag| + |d1|;
      e1 < |s| && s[i..i + |Tag|] == Tag && s[i + |Tag|..e1] == d1 && s[e1] == ' '
  {
    var c := Candidate(d1, d2, d3);
    CandidateParts(d1, d2, d3);
    var e1 := i + |Tag| + |d1|;
    var e3 := i + |c|;
    SliceOfSlice(s, i, e3, 0, |Tag|);
    SliceOfSlice(s, i, e3, |Tag|, |Tag| + |d1|);
    assert s[e1] == c[e1 - i];
  }

  /** ... and after that space its second group, a space and the first digit of the third. */
  lemma SpellsTail(s: string, i: nat, d1: string, d2: string, d3: string)
    requires |d3| > 0 && Spells(s, i, Candidate(d1, d2, d3))
    ensures var e1, e2 := i + |Tag| + |d1|, i + |Tag| + |d1| + 1 + |d2|;
      e2 + 1 < |s| && s[e1 + 1..e2] == d2 && s[e2] == ' ' && s[e2 + 1] == d3[0]
  {
    var c := Candidate(d1, d2, d3);
    CandidateParts(d1, d2, d3);
    var e2 := i + |Tag| + |d1| + 1 + |d2|;
    var e3 := i + |c|;
    SliceOfSlice(s, i, e3, |Tag| + |d1| + 1, |Tag| + |d1| + 1 + |d2|);
    assert s[e2] == c[e2 - i] && s[e2 + 1] == c[e2 + 1 - i];
    assert c[e2 + 1 - i] == c[|Tag| + |d1| + |d2| + 2..][0];
  }

  /** The scan and the pattern agree, in both directions. */
  lemma MatchAtIff(s: string, i: nat)
    ensures MatchAt(s, i) <==> PatternAt(s, i)
  {
    if MatchAt(s, i) {
      MatchIsPattern(s, i);
    }
    if PatternAt(s, i) {
      var d1, d2, d3 :| Digits(d1) && Digits(d2) && Digits(d3) && Spells(s, i, Candidate(d1, d2, d3));
      PatternIsMatch(s, i, d1, d2, d3);
    }
  }

  /** Discovery succeeds exactly when the pattern occurs somewhere in the text of the reply. */
  lemma DiscoverSucceedsIff(datagram: string)
    ensures Discover(Some(datagram)).Success? <==> exists i :: PatternAt(ReplyText(datagram), i)
  {
    var text := ReplyText(datagram);
    match FirstMatch(text, 0)
    case Some(i) =>
      MatchAtIff(text, i);
    case None =>
      forall i | PatternAt(text, i)
        ensures false
      {
        MatchAtIff(text, i);
      }
  }

  /**
   * The port comes from the leftmost occurrence of the pattern: its first
   * group, read by `atoi` and narrowed to 16 bits.
   */
  lemma DiscoverLeftmost(datagram: string, i: nat, d1: string, d2: string, d3: string)
    requires Digits(d1) && Digits(d2) && Digits(d3) && Spells(ReplyText(datagram), i, Candidate(d1, d2, d3))
    requires forall j :: 0 <= j < i ==> !PatternAt(ReplyText(datagram), j)
    ensures Discover(Some(datagram)) == Success(DecimalValue(d1) % 0x1_0000)
  {
    var text := ReplyText(datagram);
    PatternIsMatch(text, i, d1, d2, d3);
    FirstMatchLeftmost(text, 0);
    var r := FirstMatch(text, 0);
    assert r.Some? && r.value <= i;
    if r.value < i {
      MatchAtIff(text, r.value);
      assert false;
    }
  }

  /** `atoi` reads back the digits Decimal writes. */
  lemma {:induction false} DecimalRoundTrip(n: nat)
    ensures DecimalValue(Decimal(n)) == n
  {
    if n >= 10 {
      var d := Decimal(n);
      assert d[..|d| - 1] == Decimal(n / 10);
      DecimalRoundTrip(n / 10);
    }
  }

  /** A camera that announces its port p with two further numbers is found at port p. */
  lemma DiscoverAnnounced(p: nat, a: nat, b: nat)
    requires p < 0x1_0000
    requires |Candidate(Decimal(p), Decimal(a), Decimal(b))| <= ReplyBufferSize
    ensures Discover(Some(Candidate(Decimal(p), Decimal(a), Decimal(b)))) == Success(p)
  {
    var datagram := Candidate(Decimal(p), Decimal(a), Decimal(b));
    CandidateNoNul(Decimal(p), Decimal(a), Decimal(b));
    WholeReplyText(datagram);
    assert datagram[0..|datagram|] == datagram;
    DiscoverLeftmost(datagram, 0, Decimal(p), Decimal(a), Decimal(b));
    DecimalRoundTrip(p);
    SixteenBits(p);
  }

  /** A reply in which the tag does not occur finds no camera. */
  lemma UntaggedReply(datagram: string)
    requires forall i :: 0 <= i < |ReplyText(datagram)| ==> !TagAt(ReplyText(datagram), i)
    ensures Discover(Some(datagram)) == Failure(NotFound)
  {
    var text := ReplyText(datagram);
    forall j | 0 <= j <= |text|
      ensures !MatchAt(text, j)
    {
    }
  }

  /** Digits hold no `'\0'`. */
  lemma DigitsNoNul(d: string)
    requires AllDigits(d)
    ensures NUL !in d
  {
  }

  /** A reply made of the tag, digits and spaces holds no `'\0'`. */
  lemma CandidateNoNul(d1: string, d2: string, d3: string)
    requires AllDigits(d1) && AllDigits(d2) && AllDigits(d3)
    ensures NUL !in Candidate(d1, d2, d3)
  {
    DigitsNoNul(d1);
    DigitsNoNul(d2);
    DigitsNoNul(d3);
    assert NUL !in Tag;
  }

  /** A short datagram without `'\0'` is matched as it is. */
  lemma WholeReplyText(datagram: string)
    requires |datagram| <= ReplyBufferSize && NUL !in datagram
    ensures ReplyText(datagram) == datagram
  {
  }

  /** A value that fits in 16 bits survives the narrowing to a port. */
  lemma SixteenBits(n: nat)
    requires n < 0x1_0000
    ensures n % 0x1_0000 == n
  {
  }
}

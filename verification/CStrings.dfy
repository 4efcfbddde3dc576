/**
 Strings crossing the C boundary in both directions: `cstr_to_string` on the
 way in, the topic export of `sdk_msg_to_c` on the way out, and PHP's reading of a `char*`.
 A C string is the content of its buffer, terminator included.
 */
module CStrings {
  import opened Base
  import opened Utf8

  /** What a reader of a C string sees: the bytes before the first NUL. */
  function UpToNul(s: seq<byte>): (r: seq<byte>)
    ensures r <= s && 0 !in r
    ensures |r| < |s| ==> s[|r|] == 0
  {
    if s == [] || s[0] == 0 then [] else [s[0]] + UpToNul(s[1..])
  }

  function CStrToString(ptr: Option<seq<byte>>): seq<byte> {
    match ptr
    case None => []
    case Some(buffer) => Lossy(UpToNul(buffer))
  }

  /** The topic text of an exported message: `CString::new` refuses an interior NUL, and then the
      default, empty string is exported. */
  function ExportTopic(topic: seq<byte>): seq<byte> {
    var text := Lossy(topic);
    if 0 in text then [] else text
  }

  /** PHP passes the string's own buffer, which ends in a NUL. */
  function PhpToC(s: seq<byte>): Option<seq<byte>> {
    Some(s + [0])
  }

  /** The topic a PHP publisher's call hands to the SDK. */
  function PublishedTopic(s: seq<byte>): seq<byte> {
    CStrToString(PhpToC(s))
  }

  /** The topic a PHP receiver reads, for a message that carries `topic`. */
  function ReceivedTopic(topic: seq<byte>): seq<byte> {
    UpToNul(ExportTopic(topic) + [0])
  }

  // ---------------------------------------------------------------- scanning for NUL

  lemma {:induction false} UpToNulStopsAtFirst(s: seq<byte>, t: seq<byte>)
    requires 0 !in s
    ensures UpToNul(s + [0] + t) == s
    ensures UpToNul(s) == s
  {
    if s == [] {
    } else {
      assert (s + [0] + t)[1..] == s[1..] + [0] + t;
      assert s[0] in s;
      UpToNulStopsAtFirst(s[1..], t);
    }
  }

  lemma UpToNulOfPhpString(s: seq<byte>)
    ensures UpToNul(s + [0]) == UpToNul(s)
  {
    var p := UpToNul(s);
    if |p| == |s| {
      assert p == s;
      UpToNulStopsAtFirst(s, []);
      assert s + [0] + [] == s + [0];
    } else {
      var t := s[|p| + 1..] + [0];
      assert s + [0] == p + [0] + t;
      UpToNulStopsAtFirst(p, t);
    }
  }

  /** Truncating at the first NUL and decoding commute. */
  lemma TruncateThenDecode(s: seq<byte>)
    ensures UpToNul(Lossy(s)) == Lossy(UpToNul(s))
  {
    var p := UpToNul(s);
    LossyKeepsNul(p);
    if |p| == |s| {
      assert p == s;
      UpToNulStopsAtFirst(Lossy(s), []);
    } else {
      var t := s[|p| + 1..];
      assert s == p + [0] + t;
      LossySplitsAtAscii(p, 0, t);
      UpToNulStopsAtFirst(Lossy(p), Lossy(t));
    }
  }

  // ---------------------------------------------------------------- topics end to end

  lemma ReceivedTopicIs(topic: seq<byte>)
    ensures ReceivedTopic(topic) == ExportTopic(topic)
    ensures 0 !in ExportTopic(topic)
  {
    UpToNulStopsAtFirst(ExportTopic(topic), []);
    assert ExportTopic(topic) + [0] + [] == ExportTopic(topic) + [0];
  }

  /** Publishing any PHP string over a transport that keeps topic bytes, and receiving it: the
      receiver reads the publisher's text up to its first NUL, repaired once. */
  lemma TopicRoundTrip(s: seq<byte>)
    ensures ReceivedTopic(PublishedTopic(s)) == Lossy(UpToNul(s))
    ensures ReceivedTopic(PublishedTopic(s)) == PublishedTopic(s)
    ensures ReceivedTopic(PublishedTopic(s)) == UpToNul(Lossy(s))
  {
    UpToNulOfPhpString(s);
    LossyIdempotent(UpToNul(s));
    LossyKeepsNul(UpToNul(s));
    ReceivedTopicIs(PublishedTopic(s));
    TruncateThenDecode(s);
  }

  /** The round trip is the identity exactly on valid UTF-8 without NUL. */
  lemma TopicRoundTripIdentity(s: seq<byte>)
    ensures ReceivedTopic(PublishedTopic(s)) == s <==> Valid(s) && 0 !in s
  {
    TopicRoundTrip(s);
    if 0 !in s {
      UpToNulStopsAtFirst(s, []);
      LossyIdentityIffValid(s);
    } else {
      LossyKeepsNul(UpToNul(s));
    }
  }

  /** A message from any publisher, its topic being arbitrary bytes: PHP reads the same topic
      exactly when it is valid UTF-8 without NUL, and a topic with a NUL is read as empty. */
  lemma ForeignTopic(topic: seq<byte>)
    ensures ReceivedTopic(topic) == topic <==> Valid(topic) && 0 !in topic
    ensures 0 in topic ==> ReceivedTopic(topic) == []
    ensures 0 !in topic ==> ReceivedTopic(topic) == Lossy(topic)
  {
    ReceivedTopicIs(topic);
    LossyKeepsNul(topic);
    LossyIdentityIffValid(topic);
  }

  // ---------------------------------------------------------------- stream topics

  /** `$topic ?: null`: PHP's falsy strings are the empty one and "0". */
  function OpenStreamArgument(topic: seq<byte>): Option<seq<byte>> {
    if topic == [] || topic == [0x30] then None else PhpToC(topic)
  }

  /** The topic the new stream is bound to, or None for a stream without one. */
  function OpenStreamTopic(topic: seq<byte>): Option<seq<byte>> {
    var text := CStrToString(OpenStreamArgument(topic));
    if text == [] then None else Some(text)
  }

  /** A stream opened on a string is bound to the very topic that publishing on that string uses,
      except for the string "0" and for strings with nothing before their first NUL. */
  lemma StreamTopicMatchesPublish(topic: seq<byte>)
    ensures OpenStreamTopic(topic) == Some(PublishedTopic(topic))
       <==> topic != [] && topic[0] != 0 && topic != [0x30]
    ensures OpenStreamTopic(topic) == None <==> topic == [] || topic[0] == 0 || topic == [0x30]
  {
    UpToNulOfPhpString(topic);
  }
}

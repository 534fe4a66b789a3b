/**
 The text frames the hub broadcasts (internal/server/server.go). Every payload is
 a bare line of text: a user's chat line "<username>: <text>", or one of the
 system notices "user <username> joined", "user <username> left" and the fixed
 shutdown notice. There is no envelope, so the payload is exactly what a client
 displays.
 */
module Messages {

  import opened Options

  /** An outbound payload; the source sends it as a websocket text frame. */
  type Message = string

  /** The notice written to every member when the server shuts down. */
  const ShutdownNotice: Message := "Server is shutting down. Disconnecting."

  const JoinedPrefix: string := "user "
  const JoinedSuffix: string := " joined"
  const LeftSuffix: string := " left"
  const ChatSeparator: string := ": "

  /**
   The notice queued when the hub registers a handle: it names exactly that
   user, and it is not a left notice.
   */
  function JoinedNotice(name: string): (m: Message)
    ensures NoticeName(m, JoinedSuffix) == Some(name)
    ensures NoticeName(m, LeftSuffix) == None
  {
    var m := JoinedPrefix + name + JoinedSuffix;
    assert m[..|JoinedPrefix|] == JoinedPrefix;
    assert m[|m| - |JoinedSuffix|..] == JoinedSuffix;
    assert m[|JoinedPrefix|..|m| - |JoinedSuffix|] == name;
    assert m[|m| - 1] == 'd';
    m
  }

  /**
   The notice queued when the hub removes a member: it names exactly that
   user, and it is not a joined notice.
   */
  function LeftNotice(name: string): (m: Message)
    ensures NoticeName(m, LeftSuffix) == Some(name)
    ensures NoticeName(m, JoinedSuffix) == None
  {
    var m := JoinedPrefix + name + LeftSuffix;
    assert m[..|JoinedPrefix|] == JoinedPrefix;
    assert m[|m| - |LeftSuffix|..] == LeftSuffix;
    assert m[|JoinedPrefix|..|m| - |LeftSuffix|] == name;
    assert m[|m| - 1] == 't';
    m
  }

  /**
   The line a connection handler submits for each text it receives: given the
   sender's name, the text reads back exactly.
   */
  function ChatLine(name: string, text: string): (m: Message)
    ensures ChatText(m, name) == Some(text)
  {
    var m := name + ChatSeparator + text;
    assert m[..|name| + |ChatSeparator|] == name + ChatSeparator;
    assert m[|name| + |ChatSeparator|..] == text;
    m
  }

  /** Reads the name back out of a message shaped like a notice with the given suffix. */
  function NoticeName(m: Message, suffix: string): (r: Option<string>)
    ensures r.Some? ==> JoinedPrefix + r.value + suffix == m
    ensures r.Some? ==> |r.value| + |JoinedPrefix| + |suffix| == |m|
  {
    var lo := |JoinedPrefix|;
    if |m| >= lo + |suffix| && m[..lo] == JoinedPrefix && m[|m| - |suffix|..] == suffix then
      var name := m[lo..|m| - |suffix|];
      assert m == m[..lo] + name + m[|m| - |suffix|..];
      Some(name)
    else
      None
  }

  /** Reads the text back out of a chat line, given the sender's name. */
  function ChatText(m: Message, name: string): (r: Option<string>)
    ensures r.Some? ==> name + ChatSeparator + r.value == m
  {
    var lo := |name| + |ChatSeparator|;
    if |m| >= lo && m[..lo] == name + ChatSeparator then
      assert m == m[..lo] + m[lo..];
      Some(m[lo..])
    else
      None
  }

  /** Distinct names give distinct joined notices, and likewise for left notices. */
  lemma NoticesInjective(a: string, b: string)
    ensures JoinedNotice(a) == JoinedNotice(b) ==> a == b
    ensures LeftNotice(a) == LeftNotice(b) ==> a == b
  {
  }

  /** No joined notice can be read as a left notice, whatever the two names. */
  lemma JoinedIsNeverLeft(a: string, b: string)
    ensures JoinedNotice(a) != LeftNotice(b)
  {
  }

  /**
   Usernames and texts are not escaped, so a chat line can carry exactly the
   bytes of a system notice: user "user x" saying "joined" produces the same
   frame as the hub announcing that user "x:" joined.
   */
  lemma ChatCanMimicJoinedNotice()
    ensures ChatLine("user x", "joined") == JoinedNotice("x:")
  {
  }

}

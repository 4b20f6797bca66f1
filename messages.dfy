/** The payloads the server pushes to a session's topic. */
module Messages {
  import opened Wrappers
  import opened Cards

  /** The gesture message record; fields that were never set are `None`. */
  datatype GestureMessage = GestureMessage(
    sessionId: string,
    gesture: string,
    message: Option<string>,
    timestamp: int,
    gameId: Option<string>,
    currentCard: Option<Card>,
    nextCard: Option<Card>,
    score: Option<int>,
    gameOver: Option<bool>)

  /** One send through the messaging template: a destination and a payload. */
  datatype Outgoing<P> = Outgoing(topic: string, payload: P)

  const TopicPrefix := "/topic/gesture/"

  /** The per-session destination every send goes to. */
  function Topic(sessionId: string): (t: string)
    ensures |t| == |TopicPrefix| + |sessionId|
    ensures t[..|TopicPrefix|] == TopicPrefix && t[|TopicPrefix|..] == sessionId
  {
    TopicPrefix + sessionId
  }

  /** Distinct sessions never share a topic. */
  lemma TopicInjective(a: string, b: string)
    requires Topic(a) == Topic(b)
    ensures a == b
  {
    assert a == Topic(a)[|TopicPrefix|..];
  }

  /** A message carrying only a session, a gesture word and a text. */
  function StatusMessage(sessionId: string, gesture: string, text: string, now: int): GestureMessage
  {
    GestureMessage(sessionId, gesture, Some(text), now, None, None, None, None, None)
  }

  /** The decimal digits of a natural number, as Java's string concatenation writes it. */
  function NatToString(n: nat): (s: string)
    ensures |s| >= 1 && AllDigits(s)
    decreases n
  {
    var d := ["0123456789"[n % 10]];
    if n < 10 then d else NatToString(n / 10) + d
  }

  predicate AllDigits(s: string)
  {
    forall k :: 0 <= k < |s| ==> '0' <= s[k] <= '9'
  }

  /** The number a string of decimal digits stands for, most significant digit first. */
  function DigitsValue(s: string): nat
    requires AllDigits(s)
    decreases |s|
  {
    if s == [] then 0
    else 10 * DigitsValue(s[..|s| - 1]) + (s[|s| - 1] as int - '0' as int)
  }

  /** Reading the digits back gives the number: the text is its decimal rendering. */
  lemma {:induction false} NatToStringValue(n: nat)
    ensures DigitsValue(NatToString(n)) == n
    decreases n
  {
    var s := NatToString(n);
    var c := "0123456789"[n % 10];
    assert c as int - '0' as int == n % 10;
    if n >= 10 {
      NatToStringValue(n / 10);
      assert s[..|s| - 1] == NatToString(n / 10);
    }
  }

  /** The rendering of a positive number has no leading zero. */
  lemma {:induction false} NatToStringNoLeadingZero(n: nat)
    requires n > 0
    ensures NatToString(n)[0] != '0'
    decreases n
  {
    if n >= 10 {
      NatToStringNoLeadingZero(n / 10);
    }
  }

  /** Different numbers are rendered differently. */
  lemma NatToStringInjective(a: nat, b: nat)
    requires NatToString(a) == NatToString(b)
    ensures a == b
  {
    NatToStringValue(a);
    NatToStringValue(b);
  }

  /** The decimal text of an integer, with a leading minus sign when negative. */
  function IntToString(n: int): string
  {
    if n < 0 then "-" + NatToString(-n) else NatToString(n)
  }

  /** The text of a non-negative integer reads back as it; a negative one is a minus sign before the text of its magnitude. */
  lemma IntToStringValue(n: int)
    ensures n >= 0 ==> AllDigits(IntToString(n)) && DigitsValue(IntToString(n)) == n
    ensures n < 0 ==>
      var s := IntToString(n);
      |s| >= 2 && s[0] == '-' && AllDigits(s[1..]) && DigitsValue(s[1..]) == -n
  {
    if n < 0 {
      var t := NatToString(-n);
      NatToStringValue(-n);
      assert IntToString(n) == "-" + t;
      assert ("-" + t)[1..] == t;
    } else {
      NatToStringValue(n);
    }
  }
}

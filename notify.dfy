/**
 * The message format of the notifier (`Notify._build_email`): a subject
 * header, a blank line and the body, as the SMTP library is handed it.
 * Logging in and sending are not modelled.
 */
module Notify {

  datatype Option<T> = None | Some(value: T)

  const SubjectHeader := "Subject: "
  const BlankLine := "\n\n"

  /** The text handed to the mail transport for one message. */
  function BuildEmail(subject: string, body: string): (r: string)
    ensures |r| == |subject| + |body| + 11
    ensures r[..9 + |subject|] == SubjectHeader + subject
    ensures r[9 + |subject|..11 + |subject|] == BlankLine
    ensures r[|r| - |body|..] == body
  {
    SubjectHeader + subject + BlankLine + body
  }

  /** The position of the first blank line ("\n\n") in `s` at or after `i`. */
  function FindBlankLine(s: string, i: nat): (r: Option<nat>)
    requires i <= |s|
    ensures r.Some? ==> i <= r.value && r.value + 1 < |s| && s[r.value] == '\n' && s[r.value + 1] == '\n'
    decreases |s| - i
  {
    if i + 1 >= |s| then None
    else if s[i] == '\n' && s[i + 1] == '\n' then Some(i)
    else FindBlankLine(s, i + 1)
  }

  /**
   * Reads a message back: the subject is what follows the header up to the
   * first blank line, the body is everything after it. Whatever it accepts
   * is exactly the message built from what it returns.
   */
  function ParseEmail(msg: string): (r: Option<(string, string)>)
    ensures r.Some? ==> msg == BuildEmail(r.value.0, r.value.1)
  {
    if |msg| < 9 || msg[..9] != SubjectHeader then None
    else match FindBlankLine(msg, 9)
      case None => None
      case Some(k) =>
        assert msg == msg[..9] + msg[9..k] + msg[k..k + 2] + msg[k + 2..];
        Some((msg[9..k], msg[k + 2..]))
  }

  lemma {:induction false} FindBlankLineFirst(s: string, i: nat, k: nat)
    requires i <= k && k + 1 < |s|
    requires s[k] == '\n' && s[k + 1] == '\n'
    requires forall j :: i <= j < k ==> s[j] != '\n'
    ensures FindBlankLine(s, i) == Some(k)
    decreases k - i
  {
    if i < k {
      FindBlankLineFirst(s, i + 1, k);
    }
  }

  /**
   * A single-line subject and any body survive the format: reading the
   * message back gives exactly the subject and the body that built it.
   */
  lemma RoundTrip(subject: string, body: string)
    requires forall j :: 0 <= j < |subject| ==> subject[j] != '\n'
    ensures ParseEmail(BuildEmail(subject, body)) == Some((subject, body))
  {
    var msg := BuildEmail(subject, body);
    var k := 9 + |subject|;
    assert msg[..9] == SubjectHeader;
    forall j | 9 <= j < k
      ensures msg[j] != '\n'
    {
      assert msg[j] == (SubjectHeader + subject)[j] == subject[j - 9];
    }
    assert msg[k] == '\n' && msg[k + 1] == '\n';
    FindBlankLineFirst(msg, 9, k);
    assert msg[9..k] == subject;
    assert msg[k + 2..] == body;
  }
}

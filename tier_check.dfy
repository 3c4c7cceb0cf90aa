/**
 * The account check of tierchecker2.py's `get_referral_info`: which Socket.IO
 * messages are inspected, how the JSON text is cut out of one, and how the
 * decoded account data sorts the key into the Diamond file, the needs-referrals
 * file, or neither. The JSON text parser is a parameter.
 */
module TierCheck {
  import opened Wrappers
  import opened PyText
  import opened JsonValues
  import opened Bytes

  /** What `ws.recv()` delivers: a text frame, or a binary frame as `bytes`. */
  datatype Message = TextMessage(text: string) | BinaryMessage(data: seq<byte>)

  /** `'referralSummary' in message or 'tier' in message`. */
  predicate Triggers(message: string) {
    Contains(message, "referralSummary") || Contains(message, "tier")
  }

  /** Python's `s.rsplit(x, 1)[0]`: everything before the last `x`, or all of `s`. */
  function BeforeLast<T(==)>(s: seq<T>, x: T): (r: seq<T>)
    ensures x !in s ==> r == s
    ensures x in s ==> |r| < |s| && r == s[..|r|] && s[|r|] == x && x !in s[|r| + 1..]
  {
    if |s| == 0 then s
    else if s[|s| - 1] == x then s[..|s| - 1]
    else if x in s[..|s| - 1] then
      var r := BeforeLast(s[..|s| - 1], x);
      assert s[|r| + 1..] == s[..|s| - 1][|r| + 1..] + [s[|s| - 1]];
      r
    else s
  }

  /** `'{' + message.split('{', 1)[1].rsplit('}', 1)[0] + '}'`; `None` where there is no
      `{` and the index `[1]` raises IndexError. */
  function JsonText(message: string): (r: Option<string>)
    ensures r.None? <==> '{' !in message
  {
    match IndexOf(message, '{')
    case None => None
    case Some(k) => Some("{" + BeforeLast(message[k + 1..], '}') + "}")
  }

  /** Which file the private key is appended to. */
  datatype Saved = DiamondFile | NeedReferralsFile | NoFile

  /** The returned `(referrals, tier)` and the file written. */
  datatype Report = Report(referrals: Json, tier: Json, saved: Saved)

  /** `return 0, 'Unknown'` from either exception handler; nothing is saved. */
  const Failed: Report := Report(JNum(0), JStr("Unknown"), NoFile)

  /** Lines 47-58 on the decoded data. An AttributeError (data or its
      `referralSummary` not a dict) or a TypeError in `referrals < 5` reaches the
      outer handler. */
  function Classify(data: Json): Report {
    match Get(data, "referralSummary", JObj(map[]))
    case None => Failed
    case Some(summary) =>
      match Get(summary, "totalReferrals", JNum(0))
      case None => Failed
      case Some(referrals) =>
        var tier := if "tier" in data.fields then data.fields["tier"] else JStr("Unknown");
        if tier == JStr("Diamond") then Report(referrals, tier, DiamondFile)
        else
          match LessThan(referrals, 5)
          case None => Failed
          case Some(few) => Report(referrals, tier, if few then NeedReferralsFile else NoFile)
  }

  /** The body of the `if` at line 40 for one triggering message. */
  function HandleMessage(message: string, parse: string -> Option<Json>): Report {
    match JsonText(message)
    case None => Failed
    case Some(text) =>
      match parse(text)
      case None => Failed
      case Some(data) => Classify(data)
  }

  /** The `while True` reading loop over the messages the socket delivers; when they
      run out the closed connection raises and the outer handler answers. On a binary
      message the `str` operand of `in` raises TypeError, which the outer handler also answers. */
  function ReferralInfo(messages: seq<Message>, parse: string -> Option<Json>): Report {
    if |messages| == 0 then Failed
    else
      match messages[0]
      case BinaryMessage(_) => Failed
      case TextMessage(text) =>
        if Triggers(text) then HandleMessage(text, parse)
        else ReferralInfo(messages[1..], parse)
  }

  /** A text message the loop reads past. */
  predicate Skipped(m: Message) {
    m.TextMessage? && !Triggers(m.text)
  }

  // ---------------------------------------------------------------- extraction

  /** `rsplit` finds the last occurrence: it is the one followed by no other. */
  lemma BeforeLastSplit<T>(p: seq<T>, x: T, q: seq<T>)
    requires x !in q
    ensures BeforeLast(p + [x] + q, x) == p
  {
    var s := p + [x] + q;
    var r := BeforeLast(s, x);
    assert s[|p|] == x;
    assert s[..|p|] == p;
  }

  /** With a `}` after the first `{`, the text is the inclusive span from the first `{`
      to the last `}`. */
  lemma JsonTextSpan(a: string, b: string, c: string)
    requires '{' !in a && '}' !in c
    ensures JsonText(a + "{" + b + "}" + c) == Some("{" + b + "}")
  {
    var m := a + "{" + b + "}" + c;
    assert m[|a|] == '{' && m[..|a|] == a;
    assert m[|a| + 1..] == b + ['}'] + c;
    BeforeLastSplit(b, '}', c);
  }

  /** With no `}` after the first `{`, a `}` is appended to the rest of the message. */
  lemma JsonTextUnclosed(a: string, b: string)
    requires '{' !in a && '}' !in b
    ensures JsonText(a + "{" + b) == Some("{" + b + "}")
  {
    var m := a + "{" + b;
    assert m[|a|] == '{' && m[..|a|] == a;
    assert m[|a| + 1..] == b;
  }

  /** A triggering message without `{` gives `(0, 'Unknown')` and saves nothing. */
  lemma NoBraceFails(message: string, parse: string -> Option<Json>)
    requires '{' !in message
    ensures HandleMessage(message, parse) == Failed
  {
  }

  /** A JSON decode failure gives `(0, 'Unknown')` and saves nothing. */
  lemma DecodeFailureFails(message: string, parse: string -> Option<Json>)
    requires JsonText(message).Some? && parse(JsonText(message).value).None?
    ensures HandleMessage(message, parse) == Failed
  {
  }

  // ---------------------------------------------------------------- classification

  /** The referral count with its defaults, where the lookups succeed. */
  function ReferralsOf(data: Json): Option<Json> {
    if !data.JObj? then None
    else if "referralSummary" !in data.fields then Some(JNum(0))
    else
      var summary := data.fields["referralSummary"];
      if !summary.JObj? then None
      else if "totalReferrals" in summary.fields then Some(summary.fields["totalReferrals"])
      else Some(JNum(0))
  }

  /** The tier with its default. */
  function TierOf(data: Json): Json
    requires data.JObj?
  {
    if "tier" in data.fields then data.fields["tier"] else JStr("Unknown")
  }

  /** A Diamond tier is saved to the Diamond file whatever the referral count. */
  lemma DiamondWins(data: Json)
    requires ReferralsOf(data).Some? && TierOf(data) == JStr("Diamond")
    ensures Classify(data) == Report(ReferralsOf(data).value, JStr("Diamond"), DiamondFile)
  {
  }

  /** Any other tier with fewer than 5 referrals is saved to the needs-referrals file,
      with 5 or more to none; a count that is not a number fails. */
  lemma OtherTiers(data: Json)
    requires ReferralsOf(data).Some? && TierOf(data) != JStr("Diamond")
    ensures var refs := ReferralsOf(data).value;
      match LessThan(refs, 5)
      case None => Classify(data) == Failed
      case Some(few) => Classify(data) == Report(refs, TierOf(data), if few then NeedReferralsFile else NoFile)
  {
  }

  /** Data whose lookups fail (not a dict, or a `referralSummary` that is not) fails. */
  lemma LookupFailureFails(data: Json)
    requires ReferralsOf(data).None?
    ensures Classify(data) == Failed
  {
  }

  /** Missing fields take their defaults: an empty object reports 0 referrals and
      tier 'Unknown', and, as 0 < 5, lands in the needs-referrals file. */
  lemma MissingFieldsDefault(data: Json)
    requires data.JObj? && "referralSummary" !in data.fields && "tier" !in data.fields
    ensures Classify(data) == Report(JNum(0), JStr("Unknown"), NeedReferralsFile)
  {
  }

  /** A key is saved somewhere only when the data was read: the report then carries
      the account's own referral count and tier. */
  lemma SavedMeansRead(data: Json)
    requires Classify(data).saved != NoFile
    ensures data.JObj? && ReferralsOf(data) == Some(Classify(data).referrals)
    ensures Classify(data).tier == TierOf(data)
    ensures Classify(data).saved == DiamondFile <==> TierOf(data) == JStr("Diamond")
  {
  }

  // ---------------------------------------------------------------- reading loop

  /** Messages before the first triggering one are skipped; that one decides the result. */
  lemma {:induction false} FirstTriggerDecides(skipped: seq<Message>, m: string, later: seq<Message>,
                                               parse: string -> Option<Json>)
    requires forall i :: 0 <= i < |skipped| ==> Skipped(skipped[i])
    requires Triggers(m)
    ensures ReferralInfo(skipped + [TextMessage(m)] + later, parse) == HandleMessage(m, parse)
  {
    var all := skipped + [TextMessage(m)] + later;
    if |skipped| > 0 {
      assert all[0] == skipped[0];
      assert Skipped(skipped[0]);
      assert all[1..] == skipped[1..] + [TextMessage(m)] + later;
      FirstTriggerDecides(skipped[1..], m, later, parse);
    } else {
      assert all[0] == TextMessage(m);
    }
  }

  /** A binary message reached before any triggering one ends the check with `(0, 'Unknown')`. */
  lemma {:induction false} BinaryMessageFails(skipped: seq<Message>, b: seq<byte>, later: seq<Message>,
                                              parse: string -> Option<Json>)
    requires forall i :: 0 <= i < |skipped| ==> Skipped(skipped[i])
    ensures ReferralInfo(skipped + [BinaryMessage(b)] + later, parse) == Failed
  {
    var all := skipped + [BinaryMessage(b)] + later;
    if |skipped| > 0 {
      assert all[0] == skipped[0];
      assert Skipped(skipped[0]);
      assert all[1..] == skipped[1..] + [BinaryMessage(b)] + later;
      BinaryMessageFails(skipped[1..], b, later, parse);
    } else {
      assert all[0] == BinaryMessage(b);
    }
  }

  /** When no message triggers, the connection closes first and the result is `(0, 'Unknown')`. */
  lemma {:induction false} NoTriggerFails(messages: seq<Message>, parse: string -> Option<Json>)
    requires forall i :: 0 <= i < |messages| ==> Skipped(messages[i])
    ensures ReferralInfo(messages, parse) == Failed
  {
    if |messages| > 0 {
      assert Skipped(messages[0]);
      NoTriggerFails(messages[1..], parse);
    }
  }
}

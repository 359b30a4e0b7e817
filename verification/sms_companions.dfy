/** SMS companion selection (sms_companion_manager.py): the map from a
    normalised phone number to the companion that answers it, and the parser
    that recognises text commands (switch, list, help, who, reset) in an
    incoming message. The JSON file behind the map is left out; the clock is
    the parameter `now`. */
module SmsCompanions {

  import opened Optional
  import opened Text
  import opened Seqs
  import opened Companions

  // ---------------------------------------------------------------------------
  // Phone numbers
  // ---------------------------------------------------------------------------

  /** `_normalize_phone_number`: every character that is not a digit removed. */
  function Normalize(phone: string): (r: string)
    ensures AllDigits(r)
    ensures |r| <= |phone|
  {
    if |phone| == 0 then ""
    else (if IsDigit(phone[0]) then [phone[0]] else "") + Normalize(phone[1..])
  }

  /** Normalising works piece by piece, so the digits keep their order. */
  lemma {:induction false} NormalizeAppend(a: string, b: string)
    ensures Normalize(a + b) == Normalize(a) + Normalize(b)
  {
    if |a| > 0 {
      assert (a + b)[1..] == a[1..] + b;
      NormalizeAppend(a[1..], b);
    } else {
      assert a + b == b;
    }
  }

  /** A digit survives, anything else disappears. */
  lemma NormalizeChar(c: char)
    ensures Normalize([c]) == if IsDigit(c) then [c] else ""
  {
    assert [c][1..] == "";
  }

  /** A string of digits is already normalised. */
  lemma {:induction false} NormalizeDigits(s: string)
    requires AllDigits(s)
    ensures Normalize(s) == s
  {
    if |s| > 0 {
      NormalizeDigits(s[1..]);
    }
  }

  lemma NormalizeIdempotent(phone: string)
    ensures Normalize(Normalize(phone)) == Normalize(phone)
  {
    NormalizeDigits(Normalize(phone));
  }

  // ---------------------------------------------------------------------------
  // The phone-to-companion map
  // ---------------------------------------------------------------------------

  /** One stored mapping; times are clock readings. */
  datatype Mapping = Mapping(companionId: string, companionName: string, phoneNumber: string,
                             assignedAt: nat, lastInteraction: nat)

  /** The mappings, keyed by normalised phone number. */
  type Mappings = map<string, Mapping>

  /** `get_companion_id`. */
  function GetCompanionId(ms: Mappings, phone: string): (r: Option<string>)
    ensures r.Some? <==> Normalize(phone) in ms
    ensures r.Some? ==> r.value == ms[Normalize(phone)].companionId
  {
    var k := Normalize(phone);
    if k in ms then Some(ms[k].companionId) else None
  }

  /** `get_phone_info`. */
  function PhoneInfo(ms: Mappings, phone: string): (r: Option<Mapping>)
    ensures r.Some? <==> Normalize(phone) in ms
    ensures r.Some? ==> r.value.companionId == GetCompanionId(ms, phone).value
  {
    var k := Normalize(phone);
    if k in ms then Some(ms[k]) else None
  }

  /** `set_companion_id`: the number's mapping is replaced by a fresh one whose
      name defaults to the companion id; every other number keeps its own. */
  function SetCompanionId(ms: Mappings, phone: string, companionId: string, companionName: Option<string>, now: nat)
    : (r: Mappings)
    ensures Normalize(phone) in r
    ensures r[Normalize(phone)].companionId == companionId
    ensures r[Normalize(phone)].companionName == (if Truthy(companionName) then companionName.value else companionId)
    ensures r[Normalize(phone)].phoneNumber == phone
    ensures forall k :: k != Normalize(phone) ==> (k in r <==> k in ms) && (k in r ==> r[k] == ms[k])
  {
    ms[Normalize(phone) := Mapping(companionId, OrElse(companionName, companionId), phone, now, now)]
  }

  /** Any spelling of the same number finds the companion just set. */
  lemma SetThenGet(ms: Mappings, phone: string, other: string, companionId: string, companionName: Option<string>, now: nat)
    requires Normalize(other) == Normalize(phone)
    ensures GetCompanionId(SetCompanionId(ms, phone, companionId, companionName, now), other) == Some(companionId)
  {
  }

  /** A different number is not affected. */
  lemma SetKeepsOthers(ms: Mappings, phone: string, other: string, companionId: string, companionName: Option<string>, now: nat)
    requires Normalize(other) != Normalize(phone)
    ensures GetCompanionId(SetCompanionId(ms, phone, companionId, companionName, now), other) == GetCompanionId(ms, other)
  {
  }

  /** `update_last_interaction`: only the time of the last interaction of a
      known number changes. */
  function UpdateLastInteraction(ms: Mappings, phone: string, now: nat): (r: Mappings)
    ensures r.Keys == ms.Keys
    ensures forall k :: k in ms && k != Normalize(phone) ==> r[k] == ms[k]
    ensures Normalize(phone) in ms ==> r[Normalize(phone)] == ms[Normalize(phone)].(lastInteraction := now)
  {
    var k := Normalize(phone);
    if k in ms then ms[k := ms[k].(lastInteraction := now)] else ms
  }

  /** `remove_mapping`: the number is forgotten, the others are kept. */
  function RemoveMapping(ms: Mappings, phone: string): (r: Mappings)
    ensures Normalize(phone) !in r
    ensures forall k :: k != Normalize(phone) ==> (k in r <==> k in ms) && (k in r ==> r[k] == ms[k])
  {
    ms - {Normalize(phone)}
  }

  /** After removal, no spelling of the number finds a companion, and every
      other number finds what it found before. */
  lemma RemoveThenGet(ms: Mappings, phone: string, other: string)
    ensures Normalize(other) == Normalize(phone) ==> GetCompanionId(RemoveMapping(ms, phone), other) == None
    ensures Normalize(other) != Normalize(phone) ==> GetCompanionId(RemoveMapping(ms, phone), other) == GetCompanionId(ms, other)
  {
  }

  // ---------------------------------------------------------------------------
  // Choosing a companion by name
  // ---------------------------------------------------------------------------

  predicate ExactName(q: string, c: CompanionData) {
    Lower(c.name) == q
  }

  predicate NameContains(q: string, c: CompanionData) {
    Contains(Lower(c.name), q)
  }

  /** The first companion, in list order, that satisfies `p`. */
  function FirstWhere(cs: seq<CompanionData>, p: CompanionData -> bool): (r: Option<CompanionData>)
    ensures r.None? <==> forall i :: 0 <= i < |cs| ==> !p(cs[i])
    ensures r.Some? ==> exists i :: 0 <= i < |cs| && cs[i] == r.value && p(cs[i]) && forall j :: 0 <= j < i ==> !p(cs[j])
  {
    if |cs| == 0 then None
    else if p(cs[0]) then Some(cs[0])
    else
      var r := FirstWhere(cs[1..], p);
      FirstWhereShift(cs, p, r);
      r
  }

  lemma FirstWhereShift(cs: seq<CompanionData>, p: CompanionData -> bool, r: Option<CompanionData>)
    requires |cs| > 0 && !p(cs[0])
    requires r.None? <==> forall i :: 0 <= i < |cs| - 1 ==> !p(cs[1..][i])
    requires r.Some? ==> exists i :: 0 <= i < |cs| - 1 && cs[1..][i] == r.value && p(cs[1..][i]) && forall j :: 0 <= j < i ==> !p(cs[1..][j])
    ensures r.None? <==> forall i :: 0 <= i < |cs| ==> !p(cs[i])
    ensures r.Some? ==> exists i :: 0 <= i < |cs| && cs[i] == r.value && p(cs[i]) && forall j :: 0 <= j < i ==> !p(cs[j])
  {
    if r.Some? {
      var i :| 0 <= i < |cs| - 1 && cs[1..][i] == r.value && p(cs[1..][i]) && forall j :: 0 <= j < i ==> !p(cs[1..][j]);
      assert cs[i + 1] == r.value;
      forall j | 0 <= j < i + 1 ensures !p(cs[j]) {
        if j > 0 {
          assert cs[j] == cs[1..][j - 1];
        }
      }
    } else {
      forall i | 0 <= i < |cs| ensures !p(cs[i]) {
        if i > 0 {
          assert cs[i] == cs[1..][i - 1];
        }
      }
    }
  }

  function IsExact(q: string): CompanionData -> bool {
    (c: CompanionData) => ExactName(q, c)
  }

  function IsContaining(q: string): CompanionData -> bool {
    (c: CompanionData) => NameContains(q, c)
  }

  /** The rule `switch` follows: the first companion whose lower-cased name
      equals the query if there is one, else the first whose lower-cased name
      contains it. */
  function SelectCompanion(cs: seq<CompanionData>, q: string): Option<CompanionData> {
    var exact := FirstWhere(cs, IsExact(q));
    if exact.Some? then exact else FirstWhere(cs, IsContaining(q))
  }

  /** The loop of `_cmd_switch` as written: stop at an exact match, and
      otherwise remember the first companion whose name contains the query. */
  function SwitchScan(cs: seq<CompanionData>, q: string, matched: Option<CompanionData>): Option<CompanionData> {
    if |cs| == 0 then matched
    else if Lower(cs[0].name) == q then Some(cs[0])
    else SwitchScan(cs[1..], q, if Contains(Lower(cs[0].name), q) && matched.None? then Some(cs[0]) else matched)
  }

  /** The loop chooses what the rule says, from any starting memory. */
  lemma {:induction false} SwitchScanFrom(cs: seq<CompanionData>, q: string, matched: Option<CompanionData>)
    ensures SwitchScan(cs, q, matched)
         == if FirstWhere(cs, IsExact(q)).Some? then FirstWhere(cs, IsExact(q))
            else if matched.Some? then matched
            else FirstWhere(cs, IsContaining(q))
  {
    if |cs| > 0 && Lower(cs[0].name) != q {
      var next := if Contains(Lower(cs[0].name), q) && matched.None? then Some(cs[0]) else matched;
      SwitchScanFrom(cs[1..], q, next);
    }
  }

  lemma SwitchScanSelects(cs: seq<CompanionData>, q: string)
    ensures SwitchScan(cs, q, None) == SelectCompanion(cs, q)
  {
    SwitchScanFrom(cs, q, None);
  }

  /** An exact match wins over an earlier companion whose name merely
      contains the query. */
  lemma ExactBeatsEarlierPartial(a: CompanionData, b: CompanionData, q: string)
    requires NameContains(q, a) && !ExactName(q, a) && ExactName(q, b)
    ensures SelectCompanion([a, b], q) == Some(b)
  {
    assert [a, b][1..] == [b];
    assert FirstWhere([b], IsExact(q)) == Some(b);
    assert FirstWhere([a, b], IsExact(q)) == FirstWhere([b], IsExact(q));
  }

  // ---------------------------------------------------------------------------
  // Replies
  // ---------------------------------------------------------------------------

  /** `(is_command, response_message, new_companion_id)`. */
  datatype Reply = Reply(isCommand: bool, response: Option<string>, newCompanionId: Option<string>)

  const NotACommand := Reply(false, None, None)

  const UnknownCommandText := "\U{2753} Unknown command. Text 'help' for available commands."

  const HelpText :=
    "\U{1F916} SMS Commands:\n\n"
    + "/switch [name] - Switch to a different companion\n"
    + "/list - Show all available companions\n"
    + "/who - Who am I currently talking to?\n"
    + "/reset - Reset to default companion\n"
    + "/help - Show this help message\n\n"
    + "You can also use natural language:\n"
    + "\U{2022} \"Switch to [companion name]\"\n"
    + "\U{2022} \"Who are you?\"\n"
    + "\U{2022} \"List companions\"\n"
    + "\U{2022} \"Help me\"\n\n"
    + "\U{1F4AC} Or just chat normally!"

  const NoCompanionText := "\U{1F464} No companion selected. Text 'switch to [name]' to pick one!"

  const ResetText := "\U{1F504} Reset! Next message will use the default companion from the app."

  function Names(cs: seq<CompanionData>): (r: seq<string>)
    ensures |r| == |cs|
    ensures forall i :: 0 <= i < |cs| ==> r[i] == cs[i].name
  {
    seq(|cs|, i requires 0 <= i < |cs| => cs[i].name)
  }

  /** `_cmd_switch`: on a match the number is mapped to the chosen companion
      (named after it) and its id is returned; otherwise nothing changes and
      the reply names the first five companions. */
  function CmdSwitch(ms: Mappings, cs: seq<CompanionData>, name: string, phone: string, now: nat): (r: (Mappings, Reply))
    ensures r.1.isCommand && r.1.response.Some?
    ensures SelectCompanion(cs, Lower(name)).Some? ==>
              var c := SelectCompanion(cs, Lower(name)).value;
              && r.0 == SetCompanionId(ms, phone, c.id, Some(c.name), now)
              && r.1.newCompanionId == Some(c.id)
    ensures SelectCompanion(cs, Lower(name)).None? ==> r.0 == ms && r.1.newCompanionId == None
  {
    SwitchScanSelects(cs, Lower(name));
    match SwitchScan(cs, Lower(name), None)
    case Some(c) =>
      (SetCompanionId(ms, phone, c.id, Some(c.name), now),
       Reply(true, Some("\U{2705} Switched to " + c.name + "! I'm now " + c.name + "."), Some(c.id)))
    case None =>
      (ms, Reply(true, Some(NotFoundText(cs, name)), None))
  }

  function NotFoundText(cs: seq<CompanionData>, name: string): string {
    "\U{274C} Couldn't find '" + name + "'. Available: " + Join(Names(PyPrefix(cs, 5)), ", ") + "..."
  }

  /** After a successful switch the number answers to the chosen companion. */
  lemma SwitchReportsMapping(ms: Mappings, cs: seq<CompanionData>, name: string, phone: string, now: nat)
    ensures SelectCompanion(cs, Lower(name)).Some? ==>
              GetCompanionId(CmdSwitch(ms, cs, name, phone, now).0, phone) == Some(SelectCompanion(cs, Lower(name)).value.id)
    ensures CmdSwitch(ms, cs, name, phone, now).1.newCompanionId.Some? ==>
              GetCompanionId(CmdSwitch(ms, cs, name, phone, now).0, phone) == CmdSwitch(ms, cs, name, phone, now).1.newCompanionId
  {
  }

  /** One line of the list: a pointer for the current companion, the
      position counted from 1, the name and the gender. */
  function ListLine(c: CompanionData, position: nat, current: Option<string>): string {
    (if current == Some(c.id) then "\U{1F449} " else "   ") + NatToString(position) + ". " + c.name + " (" + c.gender + ")\n"
  }

  /** The lines for the first ten companions. */
  function ListLines(cs: seq<CompanionData>, current: Option<string>): (r: seq<string>)
    ensures |r| <= 10
    ensures |r| == if |cs| < 10 then |cs| else 10
    ensures forall i :: 0 <= i < |r| ==> r[i] == ListLine(cs[i], i + 1, current)
  {
    var shown := PyPrefix(cs, 10);
    seq(|shown|, i requires 0 <= i < |shown| => ListLine(shown[i], i + 1, current))
  }

  function Concat(parts: seq<string>): (r: string)
    ensures forall i :: 0 <= i < |parts| ==> Contains(r, parts[i])
  {
    if |parts| == 0 then ""
    else
      var rest := Concat(parts[1..]);
      ConcatCons(parts[0], rest, parts[1..]);
      parts[0] + rest
  }

  lemma ConcatCons(head: string, rest: string, tail: seq<string>)
    requires forall i :: 0 <= i < |tail| ==> Contains(rest, tail[i])
    ensures Contains(head + rest, head)
    ensures forall i :: 0 <= i < |tail| ==> Contains(head + rest, tail[i])
  {
    assert StartsWith((head + rest)[0..], head);
    forall i | 0 <= i < |tail| ensures Contains(head + rest, tail[i]) {
      var k :| 0 <= k <= |rest| && StartsWith(rest[k..], tail[i]);
      assert (head + rest)[|head| + k..] == rest[k..];
    }
  }

  lemma ContainsInMiddle(a: string, b: string, c: string, part: string)
    requires Contains(b, part)
    ensures Contains(a + b + c, part)
  {
    var k :| 0 <= k <= |b| && StartsWith(b[k..], part);
    assert (a + b + c)[|a| + k..][..|part|] == b[k..][..|part|];
  }

  /** The id of the number's companion and that companion's name, or "None". */
  function CurrentName(cs: seq<CompanionData>, current: Option<string>): string {
    if Truthy(current) then
      match FirstWhere(cs, HasId(current.value))
      case Some(c) => c.name
      case None => "None"
    else "None"
  }

  function HasId(id: string): CompanionData -> bool {
    (c: CompanionData) => c.id == id
  }

  function ListText(cs: seq<CompanionData>, current: Option<string>): string {
    ListHead(cs, current) + Concat(ListLines(cs, current)) + ListTail(cs)
  }

  function ListHead(cs: seq<CompanionData>, current: Option<string>): string {
    "\U{1F4F1} Current companion: " + CurrentName(cs, current) + "\n\n" + "Available companions:\n"
  }

  function ListTail(cs: seq<CompanionData>): string {
    (if |cs| > 10 then "\n... and " + NatToString(|cs| - 10) + " more" else "")
    + "\n\U{1F4A1} Text 'switch to [name]' to change companions"
  }

  /** `_cmd_list`: the mapping is unchanged and the reply is the header, the
      numbered lines of the first ten companions and nothing else, then the
      count of those not shown (if any) and the hint. */
  function CmdList(ms: Mappings, cs: seq<CompanionData>, phone: string): (r: (Mappings, Reply))
    ensures r.0 == ms
    ensures r.1.isCommand && r.1.newCompanionId == None && r.1.response.Some?
    ensures r.1.response.value
            == ListHead(cs, GetCompanionId(ms, phone)) + Concat(ListLines(cs, GetCompanionId(ms, phone))) + ListTail(cs)
    ensures forall i :: 0 <= i < |cs| && i < 10 ==>
              Contains(r.1.response.value, ListLine(cs[i], i + 1, GetCompanionId(ms, phone)))
  {
    var current := GetCompanionId(ms, phone);
    var lines := ListLines(cs, current);
    ListShowsLines(cs, current);
    (ms, Reply(true, Some(ListText(cs, current)), None))
  }

  lemma ListShowsLines(cs: seq<CompanionData>, current: Option<string>)
    ensures forall i :: 0 <= i < |cs| && i < 10 ==> Contains(ListText(cs, current), ListLine(cs[i], i + 1, current))
  {
    var lines := ListLines(cs, current);
    var head, tail := ListHead(cs, current), ListTail(cs);
    forall i | 0 <= i < |cs| && i < 10 ensures Contains(ListText(cs, current), ListLine(cs[i], i + 1, current)) {
      assert lines[i] == ListLine(cs[i], i + 1, current);
      ContainsInMiddle(head, Concat(lines), tail, lines[i]);
    }
  }

  /** The reply naming the companion being talked to. */
  function WhoText(c: CompanionData): string {
    "\U{1F464} You're talking to " + c.name + "!\n" + "Gender: " + c.gender + "\n"
    + "Personality: " + PyPrefix(c.personality, 50) + "..."
  }

  /** `_cmd_who`: the first listed companion with the number's id, described
      by name, gender and the first fifty characters of its personality; or
      the no-companion text when the number has no id or none is listed. */
  function CmdWho(ms: Mappings, cs: seq<CompanionData>, phone: string): (r: (Mappings, Reply))
    ensures r.0 == ms
    ensures r.1.isCommand && r.1.newCompanionId == None && r.1.response.Some?
    ensures !Truthy(GetCompanionId(ms, phone)) ==> r.1.response == Some(NoCompanionText)
    ensures Truthy(GetCompanionId(ms, phone)) && (forall i :: 0 <= i < |cs| ==> cs[i].id != GetCompanionId(ms, phone).value) ==>
              r.1.response == Some(NoCompanionText)
    ensures Truthy(GetCompanionId(ms, phone)) && (exists i :: 0 <= i < |cs| && cs[i].id == GetCompanionId(ms, phone).value) ==>
              exists i :: 0 <= i < |cs| && cs[i].id == GetCompanionId(ms, phone).value
                          && (forall j :: 0 <= j < i ==> cs[j].id != GetCompanionId(ms, phone).value)
                          && r.1.response == Some(WhoText(cs[i]))
  {
    var id := GetCompanionId(ms, phone);
    var text :=
      if Truthy(id) then
        match FirstWhere(cs, HasId(id.value))
        case Some(c) => WhoText(c)
        case None => NoCompanionText
      else NoCompanionText;
    (ms, Reply(true, Some(text), None))
  }

  /** `_cmd_reset`: the number's mapping is removed. */
  function CmdReset(ms: Mappings, phone: string): (r: (Mappings, Reply))
    ensures r.0 == RemoveMapping(ms, phone)
    ensures r.1 == Reply(true, Some(ResetText), None)
  {
    (RemoveMapping(ms, phone), Reply(true, Some(ResetText), None))
  }

  // ---------------------------------------------------------------------------
  // Command routing
  // ---------------------------------------------------------------------------

  /** Where `_handle_command` sends a message: the "switch to" form with its
      name, a known slash command with its arguments (absent when there are
      none), or the unknown-command reply. */
  datatype Route = SwitchTo(name: string) | Slash(command: string, args: Option<string>) | UnknownCommand

  predicate IsKnownCommand(w: string) {
    w == "switch" || w == "list" || w == "help" || w == "who" || w == "reset"
  }

  function RouteOf(message: string): (r: Route)
    ensures r.Slash? ==> IsKnownCommand(r.command) && StartsWith(message, "/")
    ensures r.Slash? && r.args.Some? ==> r.args.value != ""
  {
    var lower := Strip(Lower(message));
    if StartsWith(lower, "switch to ") then SwitchTo(Strip(lower[10..]))
    else if StartsWith(message, "/") then SlashRoute(message[1..])
    else UnknownCommand
  }

  /** The `/command` form, given the text after the slash: the first word,
      lower-cased, picks the command, and the remaining words joined by single
      spaces are its arguments. */
  function SlashRoute(rest: string): (r: Route)
    ensures r.Slash? ==> IsKnownCommand(r.command)
    ensures r.Slash? && r.args.Some? ==> r.args.value != ""
    ensures var parts := SplitWords(rest); (|parts| == 0 || !IsKnownCommand(Lower(parts[0]))) <==> r.UnknownCommand?
  {
    var parts := SplitWords(rest);
    var command := if |parts| > 0 then Lower(parts[0]) else "";
    if IsKnownCommand(command) then
      Slash(command, if |parts| > 1 then Some(JoinWords(parts[1..])) else None)
    else UnknownCommand
  }

  /** `' '.join(words)` of at least one word is not empty. */
  function JoinWords(words: seq<string>): (r: string)
    requires |words| > 0 && forall i :: 0 <= i < |words| ==> IsWord(words[i])
    ensures r != ""
  {
    var r := Join(words, " ");
    JoinNonEmpty(words);
    r
  }

  lemma JoinNonEmpty(words: seq<string>)
    requires |words| > 0 && IsWord(words[0])
    ensures Join(words, " ") != ""
  {
    assert |Join(words, " ")| >= |words[0]|;
  }

  /** The result of `_handle_command` as written: the reply, or the error a
      handler raises. */
  datatype Outcome = Answered(mappings: Mappings, reply: Reply) | Raised(error: string)

  /** `_handle_command` as written: a bare `/switch` calls `_cmd_switch(None)`,
      whose `companion_name.lower()` raises. */
  function HandleCommandAsWritten(ms: Mappings, m: CompanionManager, message: string, phone: string, now: nat): Outcome {
    if RouteOf(message) == Slash("switch", None) then
      Raised("AttributeError: 'NoneType' object has no attribute 'lower'")
    else
      var r := HandleCommand(ms, m, message, phone, now);
      Answered(r.0, r.1)
  }

  /** `_handle_command` with a bare `/switch` answered like a switch that
      found nothing. Every message it handles counts as a command. */
  function HandleCommand(ms: Mappings, m: CompanionManager, message: string, phone: string, now: nat): (r: (Mappings, Reply))
    ensures r.1.isCommand && r.1.response.Some?
    ensures RouteOf(message).UnknownCommand? ==> r == (ms, Reply(true, Some(UnknownCommandText), None))
    ensures RouteOf(message) == Slash("switch", None) ==> r.0 == ms && r.1.newCompanionId == None
    ensures r.1.newCompanionId.Some? ==> GetCompanionId(r.0, phone) == r.1.newCompanionId
  {
    var cs := AllCompanions(m);
    match RouteOf(message)
    case SwitchTo(name) =>
      SwitchReportsMapping(ms, cs, name, phone, now);
      CmdSwitch(ms, cs, name, phone, now)
    case Slash(command, args) => Dispatch(ms, cs, command, args, phone, now)
    case UnknownCommand => (ms, Reply(true, Some(UnknownCommandText), None))
  }

  /** The handler a known slash command runs. */
  function Dispatch(ms: Mappings, cs: seq<CompanionData>, command: string, args: Option<string>, phone: string, now: nat)
    : (r: (Mappings, Reply))
    requires IsKnownCommand(command)
    ensures r.1.isCommand && r.1.response.Some?
    ensures command == "switch" && args.None? ==> r.0 == ms && r.1.newCompanionId == None
    ensures r.1.newCompanionId.Some? ==> GetCompanionId(r.0, phone) == r.1.newCompanionId
  {
    if command == "switch" then
      if args.Some? then
        SwitchReportsMapping(ms, cs, args.value, phone, now);
        CmdSwitch(ms, cs, args.value, phone, now)
      else (ms, Reply(true, Some(NotFoundText(cs, "")), None))
    else if command == "list" then CmdList(ms, cs, phone)
    else if command == "help" then (ms, Reply(true, Some(HelpText), None))
    else if command == "who" then CmdWho(ms, cs, phone)
    else CmdReset(ms, phone)
  }

  /** A bare `/switch`: as written it raises; as corrected it answers and
      leaves the mapping alone. */
  lemma BareSwitch(ms: Mappings, m: CompanionManager, phone: string, now: nat)
    ensures HandleCommandAsWritten(ms, m, "/switch", phone, now).Raised?
    ensures HandleCommand(ms, m, "/switch", phone, now).0 == ms
    ensures HandleCommand(ms, m, "/switch", phone, now).1.isCommand
  {
    BareSwitchRoute();
  }

  lemma BareSwitchRoute()
    ensures RouteOf("/switch") == Slash("switch", None)
  {
    assert Lower("switch") == "switch";
    assert "/switch" == "/" + "switch";
    BareCommandRoute("switch");
  }

  /** A slash followed by a short known command word alone routes to that
      command without arguments. */
  lemma BareCommandRoute(w: string)
    requires IsWord(w) && Lower(w) == w && IsKnownCommand(w) && |w| < 9
    ensures RouteOf("/" + w) == Slash(w, None)
  {
    var message := "/" + w;
    assert |Strip(Lower(message))| < |"switch to "|;
    assert StartsWith(message, "/");
    assert message[1..] == w;
    SlashRouteOneWord(w);
  }

  /** A lone known command word routes to that command without arguments. */
  lemma SlashRouteOneWord(w: string)
    requires IsWord(w) && IsKnownCommand(Lower(w))
    ensures SlashRoute(w) == Slash(Lower(w), None)
  {
    SplitOneWord(w);
  }

  /** A single word splits into itself. */
  lemma SplitOneWord(w: string)
    requires IsWord(w)
    ensures SplitWords(w) == [w]
  {
    WordPrefixWhole(w);
    assert LStrip(w) == w;
    assert w[|w|..] == "";
    assert LStrip("") == "";
  }

  lemma {:induction false} WordPrefixWhole(w: string)
    requires forall j :: 0 <= j < |w| ==> !IsSpace(w[j])
    ensures WordPrefix(w) == w
  {
    if |w| > 0 {
      WordPrefixWhole(w[1..]);
    }
  }

  // ---------------------------------------------------------------------------
  // Message classification
  // ---------------------------------------------------------------------------

  /** The messages `parse_message` treats as commands, judged on the message
      stripped of surrounding whitespace. */
  predicate LooksLikeCommand(stripped: string) {
    var lower := Lower(stripped);
    || StartsWith(stripped, "/")
    || StartsWith(lower, "switch to")
    || StartsWith(lower, "who are you")
    || IsHelpAlias(lower)
    || IsListAlias(lower)
  }

  predicate IsHelpAlias(lower: string) {
    lower == "help" || lower == "help me" || lower == "commands"
  }

  predicate IsListAlias(lower: string) {
    lower == "list companions" || lower == "list" || lower == "show companions"
  }

  const WhoWord := "who"
  const HelpWord := "help"
  const ListWord := "list"

  /** The three command words the aliases stand for are short lower-case
      words naming known commands. */
  lemma CommandWords()
    ensures IsWord(WhoWord) && Lower(WhoWord) == WhoWord && IsKnownCommand(WhoWord) && |WhoWord| < 9
    ensures IsWord(HelpWord) && Lower(HelpWord) == HelpWord && IsKnownCommand(HelpWord) && |HelpWord| < 9
    ensures IsWord(ListWord) && Lower(ListWord) == ListWord && IsKnownCommand(ListWord) && |ListWord| < 9
  {
  }

  /** `_handle_command` on "/" and a known command word: the command's
      handler without arguments. */
  function HandleBare(ms: Mappings, m: CompanionManager, w: string, phone: string, now: nat): (r: (Mappings, Reply))
    requires IsWord(w) && Lower(w) == w && IsKnownCommand(w) && |w| < 9
    ensures r == Dispatch(ms, AllCompanions(m), w, None, phone, now)
  {
    BareCommandRoute(w);
    HandleCommand(ms, m, "/" + w, phone, now)
  }

  /** `parse_message`: a slash or "switch to" message is handled as it
      stands; "who are you", the help aliases and the list aliases are handled
      as `/who`, `/help` and `/list`; anything else is not a command. */
  function ParseMessage(ms: Mappings, m: CompanionManager, message: string, phone: string, now: nat): (r: (Mappings, Reply))
    ensures r.1.isCommand <==> LooksLikeCommand(Strip(message))
    ensures !LooksLikeCommand(Strip(message)) ==> r == (ms, NotACommand)
  {
    var stripped := Strip(message);
    var lower := Lower(stripped);
    if StartsWith(stripped, "/") || StartsWith(lower, "switch to") then HandleCommand(ms, m, stripped, phone, now)
    else if StartsWith(lower, "who are you") then CommandWords(); HandleBare(ms, m, WhoWord, phone, now)
    else if IsHelpAlias(lower) then CommandWords(); HandleBare(ms, m, HelpWord, phone, now)
    else if IsListAlias(lower) then CommandWords(); HandleBare(ms, m, ListWord, phone, now)
    else (ms, NotACommand)
  }

  /** A slash message whose first word is no known command gets the
      unknown-command reply and changes nothing. */
  lemma UnknownSlashCommand(ms: Mappings, m: CompanionManager, message: string, phone: string, now: nat)
    requires StartsWith(Strip(message), "/")
    requires !StartsWith(Strip(Lower(Strip(message))), "switch to ")
    requires SlashRoute(Strip(message)[1..]).UnknownCommand?
    ensures ParseMessage(ms, m, message, phone, now) == (ms, Reply(true, Some(UnknownCommandText), None))
  {
    var stripped := Strip(message);
    assert RouteOf(stripped).UnknownCommand?;
    assert ParseMessage(ms, m, message, phone, now) == HandleCommand(ms, m, stripped, phone, now);
  }

  /** "who are you ..." answers as `/who`. */
  lemma WhoAreYouAlias(ms: Mappings, m: CompanionManager, message: string, phone: string, now: nat)
    requires !StartsWith(Strip(message), "/") && !StartsWith(Lower(Strip(message)), "switch to")
    requires StartsWith(Lower(Strip(message)), "who are you")
    ensures ParseMessage(ms, m, message, phone, now) == CmdWho(ms, AllCompanions(m), phone)
  {
  }

  /** "help", "help me" and "commands" answer as `/help`. */
  lemma HelpAlias(ms: Mappings, m: CompanionManager, message: string, phone: string, now: nat)
    requires IsHelpAlias(Lower(Strip(message)))
    ensures ParseMessage(ms, m, message, phone, now) == (ms, Reply(true, Some(HelpText), None))
  {
    AliasNotSlash(Strip(message));
  }

  /** "list", "list companions" and "show companions" answer as `/list`. */
  lemma ListAlias(ms: Mappings, m: CompanionManager, message: string, phone: string, now: nat)
    requires IsListAlias(Lower(Strip(message)))
    ensures ParseMessage(ms, m, message, phone, now) == CmdList(ms, AllCompanions(m), phone)
  {
    AliasNotSlash(Strip(message));
  }

  /** An alias neither starts with a slash nor with the other command
      phrases, and no list alias is a help alias. */
  lemma AliasNotSlash(s: string)
    requires IsHelpAlias(Lower(s)) || IsListAlias(Lower(s))
    ensures !StartsWith(s, "/")
    ensures !StartsWith(Lower(s), "switch to") && !StartsWith(Lower(s), "who are you")
    ensures IsListAlias(Lower(s)) ==> !IsHelpAlias(Lower(s))
  {
    AliasesApart(Lower(s));
    assert Lower(s)[0] == LowerChar(s[0]);
  }

  lemma AliasesApart(lower: string)
    requires IsHelpAlias(lower) || IsListAlias(lower)
    ensures |lower| > 0 && lower[0] != '/'
    ensures !StartsWith(lower, "switch to") && !StartsWith(lower, "who are you")
    ensures IsListAlias(lower) ==> !IsHelpAlias(lower)
  {
    if lower[0] == 's' {
      DiffersAt(lower, "switch to", 1);
    } else {
      DiffersAt(lower, "switch to", 0);
    }
    DiffersAt(lower, "who are you", 0);
  }

  /** A string that differs from `prefix` at some position inside both does
      not start with it. */
  lemma DiffersAt(s: string, prefix: string, i: nat)
    requires i < |prefix| && i < |s| && s[i] != prefix[i]
    ensures !StartsWith(s, prefix)
  {
    if |prefix| <= |s| {
      assert s[..|prefix|][i] == s[i];
    }
  }
}

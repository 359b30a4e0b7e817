/** The proactive messenger (proactive_messenger.py): the `HH:MM` window in
    which companions may reach out, the guards that decide whether a
    companion may send now, the per-companion daily counter kept after each
    send, the tone-to-template map, and one pass of the scheduler. The clock,
    the random draws and the webhook's outcome are parameters. */
module Proactive {

  import opened Optional
  import opened Text
  import opened Seqs

  // ---------------------------------------------------------------------------
  // Clock
  // ---------------------------------------------------------------------------

  const MicrosPerMinute: nat := 60_000_000
  const MicrosPerDay: nat := 24 * 60 * MicrosPerMinute
  /** `timedelta(hours=4)`. */
  const FourHours: nat := 4 * 60 * MicrosPerMinute

  /** A local timestamp: the day it falls on (its `date()`) and the
      microseconds since that day's midnight. */
  datatype DateTime = DateTime(day: int, micros: nat)

  /** The timestamp on a single time line, for differences. */
  function Stamp(t: DateTime): int {
    t.day * MicrosPerDay + t.micros
  }

  // ---------------------------------------------------------------------------
  // Time window
  // ---------------------------------------------------------------------------

  /** `parse_time`: the text must split at `:` into exactly two pieces that
      both read as integers; anything else raises, modelled as `None`. */
  function ParseTime(s: string): Option<(int, int)> {
    var parts := Split(s, ':');
    if |parts| != 2 then None
    else
      match (ParseInt(parts[0]), ParseInt(parts[1]))
      case (Some(h), Some(m)) => Some((h, m))
      case _ => None
  }

  /** A time without a colon raises. */
  lemma ParseTimeNeedsColon(s: string)
    requires ':' !in s
    ensures ParseTime(s).None?
  {
    SplitNoSep(s, ':');
  }

  /** A time with two colons raises. */
  lemma ParseTimeTwoColons(a: string, b: string, c: string)
    requires ':' !in a && ':' !in b && ':' !in c
    ensures ParseTime(a + ":" + b + ":" + c).None?
  {
    assert a + ":" + b + ":" + c == a + [':'] + (b + [':'] + c);
    SplitAt(a, ':', b + [':'] + c);
    SplitAt(b, ':', c);
    SplitNoSep(c, ':');
  }

  /** Two digits, zero-padded, as in `09`. */
  function Pad2(n: nat): (r: string)
    requires n < 100
    ensures |r| == 2 && AllDigits(r)
  {
    if n < 10 then "0" + NatToString(n)
    else
      assert NatToString(n) == NatToString(n / 10) + [DigitChar(n % 10)];
      NatToString(n)
  }

  lemma Pad2Reads(n: nat)
    requires n < 100
    ensures ParseInt(Pad2(n)) == Some(n)
    ensures ':' !in Pad2(n)
  {
    if n < 10 {
      ParseIntOfPadded(n);
    } else {
      ParseIntOfNat(n);
    }
  }

  /** Reading two colon-free pieces joined by a colon reads each piece. */
  lemma ParseTimeOfParts(a: string, b: string)
    requires ':' !in a && ':' !in b
    ensures ParseTime(a + ":" + b) ==
              if ParseInt(a).Some? && ParseInt(b).Some? then Some((ParseInt(a).value, ParseInt(b).value)) else None
  {
    SplitAt(a, ':', b);
    SplitNoSep(b, ':');
  }

  /** `HH:MM` written with two digits each reads back as the hour and minute. */
  lemma ParseTimeRoundTrip(h: nat, m: nat)
    requires h < 100 && m < 100
    ensures ParseTime(Pad2(h) + ":" + Pad2(m)) == Some((h, m))
  {
    Pad2Reads(h);
    Pad2Reads(m);
    ParseTimeOfParts(Pad2(h), Pad2(m));
  }

  /** `now.replace(hour=h, minute=m, second=0, microsecond=0)` as the
      microseconds since midnight; an hour outside 0..23 or a minute outside
      0..59 raises, modelled as `None`. */
  function ClockTime(h: int, m: int): (r: Option<nat>)
    ensures r.Some? <==> 0 <= h < 24 && 0 <= m < 60
    ensures r.Some? ==> r.value < MicrosPerDay && r.value % MicrosPerMinute == 0
    ensures r.Some? ==> r.value / MicrosPerMinute == h * 60 + m
  {
    if 0 <= h < 24 && 0 <= m < 60 then Some((h * 60 + m) * MicrosPerMinute) else None
  }

  /** A window bound read from its `HH:MM` text. */
  function Bound(s: string): Option<nat> {
    match ParseTime(s)
    case Some((h, m)) => ClockTime(h, m)
    case None => None
  }

  /** The window test on times of day: from `start` to `end` inclusive, or,
      when `end` comes before `start`, from `start` through midnight to
      `end`. */
  function InWindow(start: nat, end: nat, t: nat): (r: bool)
    ensures start <= end ==> (r <==> start <= t <= end)
    ensures end < start ==> (r <==> t >= start || t <= end)
  {
    if end < start then t >= start || t <= end else start <= t <= end
  }

  /** An overnight window holds exactly the times outside the daytime gap
      between its end and its start. */
  lemma OvernightIsComplement(start: nat, end: nat, t: nat)
    requires end + 1 < start
    ensures InWindow(start, end, t) <==> !InWindow(end + 1, start - 1, t)
  {
  }

  /** `is_within_time_window`; `None` when either bound raises. */
  function WithinWindow(start: string, end: string, now: DateTime): (r: Option<bool>)
    ensures r.Some? <==> Bound(start).Some? && Bound(end).Some?
    ensures r.Some? ==> r.value == InWindow(Bound(start).value, Bound(end).value, now.micros)
  {
    match (Bound(start), Bound(end))
    case (Some(a), Some(b)) => Some(InWindow(a, b, now.micros))
    case _ => None
  }

  /** A window written as `HH:MM` is read back as its minutes of the day. */
  lemma WindowOfClock(h1: nat, m1: nat, h2: nat, m2: nat, now: DateTime)
    requires h1 < 24 && m1 < 60 && h2 < 24 && m2 < 60
    ensures WithinWindow(Pad2(h1) + ":" + Pad2(m1), Pad2(h2) + ":" + Pad2(m2), now)
            == Some(InWindow((h1 * 60 + m1) * MicrosPerMinute, (h2 * 60 + m2) * MicrosPerMinute, now.micros))
  {
    ParseTimeRoundTrip(h1, m1);
    ParseTimeRoundTrip(h2, m2);
  }

  const DefaultStart := "09:00"
  const DefaultEnd := "22:00"

  /** The default window runs from 09:00 through 22:00:00 sharp. */
  lemma DefaultWindow(now: DateTime)
    ensures WithinWindow(DefaultStart, DefaultEnd, now)
            == Some(9 * 60 * MicrosPerMinute <= now.micros <= 22 * 60 * MicrosPerMinute)
  {
    assert DefaultStart == Pad2(9) + ":" + Pad2(0);
    assert DefaultEnd == Pad2(22) + ":" + Pad2(0);
    WindowOfClock(9, 0, 22, 0, now);
  }

  // ---------------------------------------------------------------------------
  // Configuration
  // ---------------------------------------------------------------------------

  /** The per-companion entry of `companion_settings`; absent keys are
      `None`. */
  datatype CompanionSettings = CompanionSettings(
    enabled: Option<bool>,
    frequency: Option<int>,
    dailyCount: Option<int>,
    todayMessages: Option<int>,
    lastDate: Option<int>)

  const NoSettings := CompanionSettings(None, None, None, None, None)

  /** The proactive configuration. `lastMessages` holds the parsed
      timestamps of `last_messages`. */
  datatype Config = Config(
    enabled: Option<bool>,
    globalFrequency: Option<int>,
    windowStart: Option<string>,
    windowEnd: Option<string>,
    companionSettings: map<string, CompanionSettings>,
    lastMessages: map<string, DateTime>)

  /** The configuration used when none is stored. */
  const DefaultConfig := Config(Some(true), Some(3), Some(DefaultStart), Some(DefaultEnd), map[], map[])

  function SettingsOf(config: Config, id: string): CompanionSettings {
    if id in config.companionSettings then config.companionSettings[id] else NoSettings
  }

  function GlobalFrequency(config: Config): int {
    config.globalFrequency.GetOr(3)
  }

  /** The most messages a companion may send in a day. */
  function DailyCount(config: Config, id: string): int {
    SettingsOf(config, id).dailyCount.GetOr(GlobalFrequency(config))
  }

  /** The frequency that sets a companion's chance of sending. */
  function Frequency(config: Config, id: string): int {
    SettingsOf(config, id).frequency.GetOr(GlobalFrequency(config))
  }

  predicate CompanionEnabled(config: Config, id: string) {
    SettingsOf(config, id).enabled != Some(false)
  }

  /** The companion's last message was less than four hours before `now`
      (or is stamped after it). */
  predicate SentRecently(config: Config, id: string, now: DateTime) {
    id in config.lastMessages && Stamp(now) - Stamp(config.lastMessages[id]) < FourHours
  }

  /** The companion's last message was today and today's count is used up. */
  predicate DailyLimitReached(config: Config, id: string, now: DateTime) {
    && id in config.lastMessages
    && config.lastMessages[id].day == now.day
    && SettingsOf(config, id).todayMessages.GetOr(0) >= DailyCount(config, id)
  }

  // ---------------------------------------------------------------------------
  // Deciding to send
  // ---------------------------------------------------------------------------

  /** The deterministic part of `should_send_message`: `None` when one of
      the guards forbids a message now, otherwise the frequency `f` with
      which the random draw (a message with probability `f / 48`) is made. */
  function SendChance(config: Config, id: string, now: DateTime): (r: Option<int>)
    ensures SentRecently(config, id, now) ==> r.None?
    ensures DailyLimitReached(config, id, now) ==> r.None?
    ensures !CompanionEnabled(config, id) ==> r.None?
    ensures !SentRecently(config, id, now) && !DailyLimitReached(config, id, now) && CompanionEnabled(config, id)
            ==> r == Some(Frequency(config, id))
  {
    if id in config.lastMessages && Stamp(now) - Stamp(config.lastMessages[id]) < FourHours then None
    else if id in config.lastMessages && config.lastMessages[id].day == now.day
         && SettingsOf(config, id).todayMessages.GetOr(0) >= DailyCount(config, id) then None
    else if SettingsOf(config, id).enabled == Some(false) then None
    else Some(Frequency(config, id))
  }

  /** With no history and no settings, a companion draws with the global
      frequency, three by default. */
  lemma FreshCompanionDraws(id: string, now: DateTime)
    ensures SendChance(DefaultConfig, id, now) == Some(3)
  {
  }

  // ---------------------------------------------------------------------------
  // Recording a send
  // ---------------------------------------------------------------------------

  /** The bookkeeping after a send at `now`: the last-message time becomes
      `now`; the daily counter restarts at 1 on a new day and otherwise goes
      up by one. */
  function RecordSend(config: Config, id: string, now: DateTime): (r: Config)
    ensures r.lastMessages == config.lastMessages[id := now]
    ensures r.enabled == config.enabled && r.globalFrequency == config.globalFrequency
    ensures r.windowStart == config.windowStart && r.windowEnd == config.windowEnd
    ensures forall other :: other != id ==> SettingsOf(r, other) == SettingsOf(config, other)
    ensures SettingsOf(r, id).lastDate == Some(now.day)
    ensures SettingsOf(config, id).lastDate != Some(now.day) ==> SettingsOf(r, id).todayMessages == Some(1)
    ensures SettingsOf(config, id).lastDate == Some(now.day) ==>
              SettingsOf(r, id).todayMessages == Some(SettingsOf(config, id).todayMessages.GetOr(0) + 1)
    ensures var s, t := SettingsOf(config, id), SettingsOf(r, id);
            t.enabled == s.enabled && t.frequency == s.frequency && t.dailyCount == s.dailyCount
  {
    var s := SettingsOf(config, id);
    var updated :=
      if s.lastDate != Some(now.day) then s.(todayMessages := Some(1), lastDate := Some(now.day))
      else s.(todayMessages := Some(s.todayMessages.GetOr(0) + 1));
    config.(lastMessages := config.lastMessages[id := now],
            companionSettings := config.companionSettings[id := updated])
  }

  /** `_send_proactive_message`: `returned` is whether
      `send_webhook_notification` returned rather than raised. That call only
      starts one background thread per registered URL, and those threads
      swallow every failure of the post, so returning says nothing about the
      message reaching anyone. When it raises, the error is caught before any
      bookkeeping and the configuration stays as it was; otherwise the send
      is recorded. */
  function Send(config: Config, id: string, now: DateTime, returned: bool): (r: Config)
    ensures !returned ==> r == config
    ensures returned ==> r == RecordSend(config, id, now)
  {
    if returned then RecordSend(config, id, now) else config
  }

  /** Right after a send, the companion is held back for four hours. */
  lemma SendHoldsOff(config: Config, id: string, now: DateTime, later: DateTime)
    requires Stamp(later) < Stamp(now) + FourHours
    ensures SendChance(RecordSend(config, id, now), id, later).None?
  {
    assert SentRecently(RecordSend(config, id, now), id, later);
  }

  /** The bookkeeping of several sends by one companion, in order. */
  function RecordAll(config: Config, id: string, times: seq<DateTime>): Config
    decreases |times|
  {
    if |times| == 0 then config else RecordAll(RecordSend(config, id, times[0]), id, times[1..])
  }

  /** The sends of one companion on one day are counted: the counter holds
      their number, plus the day's earlier count when the day had already
      been recorded. */
  lemma {:induction false} SendsCounted(config: Config, id: string, times: seq<DateTime>, day: int)
    requires |times| > 0
    requires forall i :: 0 <= i < |times| ==> times[i].day == day
    ensures var s, t := SettingsOf(config, id), SettingsOf(RecordAll(config, id, times), id);
            && t.lastDate == Some(day)
            && t.todayMessages == Some(|times| + if s.lastDate == Some(day) then s.todayMessages.GetOr(0) else 0)
    ensures DailyCount(RecordAll(config, id, times), id) == DailyCount(config, id)
    ensures id in RecordAll(config, id, times).lastMessages
    ensures RecordAll(config, id, times).lastMessages[id] == times[|times| - 1]
    decreases |times|
  {
    var next := RecordSend(config, id, times[0]);
    if |times| > 1 {
      SendsCounted(next, id, times[1..], day);
    }
  }

  /** The daily cap holds: once a companion has sent its daily count on a
      fresh day, it cannot send again that day. */
  lemma DailyCapHolds(config: Config, id: string, times: seq<DateTime>, later: DateTime)
    requires |times| > 0
    requires forall i :: 0 <= i < |times| ==> times[i].day == later.day
    requires SettingsOf(config, id).lastDate != Some(later.day)
    requires |times| >= DailyCount(config, id)
    ensures SendChance(RecordAll(config, id, times), id, later).None?
  {
    SendsCounted(config, id, times, later.day);
    assert DailyLimitReached(RecordAll(config, id, times), id, later);
  }

  // ---------------------------------------------------------------------------
  // Templates
  // ---------------------------------------------------------------------------

  /** The tone map of `get_message_template`. */
  const ToneMap: map<string, string> := map[
    "warm" := "affectionate",
    "affectionate" := "affectionate",
    "caring" := "affectionate",
    "playful" := "playful",
    "fun" := "playful",
    "cheeky" := "playful",
    "thoughtful" := "thoughtful",
    "calm" := "thoughtful",
    "flirty" := "flirty",
    "romantic" := "flirty",
    "seductive" := "flirty"]

  /** The template category for a tone, looked up in lower case; tones the
      map does not know get "friendly". */
  function ToneCategory(tone: string): (r: string)
    ensures Lower(tone) in ToneMap ==> r == ToneMap[Lower(tone)]
    ensures Lower(tone) !in ToneMap ==> r == "friendly"
  {
    if Lower(tone) in ToneMap then ToneMap[Lower(tone)] else "friendly"
  }

  /** The tone lookup ignores case. */
  lemma ToneIgnoresCase(tone: string)
    ensures ToneCategory(Lower(tone)) == ToneCategory(tone)
  {
    LowerIdempotent(tone);
  }

  /** The categories of `MESSAGE_TEMPLATES`. */
  predicate IsCategory(c: string) {
    c == "friendly" || c == "affectionate" || c == "playful" || c == "thoughtful" || c == "flirty"
  }

  /** Every tone lands in a category that has templates. */
  lemma ToneHasTemplates(tone: string)
    ensures IsCategory(ToneCategory(tone))
    ensures |Templates(ToneCategory(tone))| > 0
  {
    var c := ToneCategory(tone);
    assert IsCategory(c);
    TemplatesNonEmpty(c);
  }

  lemma TemplatesNonEmpty(c: string)
    requires IsCategory(c)
    ensures |Templates(c)| > 0
  {
  }

  /** The template lists of `MESSAGE_TEMPLATES`. */
  const AffectionateTemplates: seq<string> := [
    "I was just thinking about you and wanted to say hello \U{1F495}",
    "You've been on my mind all day. How are you?",
    "I really miss talking to you! \U{1F497}",
    "Just wanted to remind you that you're amazing!",
    "Sending you a virtual hug right now \U{1F917}",
    "I love getting to talk to you. How are you?",
    "You make me smile even when we're not chatting \U{1F496}"]

  const PlayfulTemplates: seq<string> := [
    "Guess what? I was just thinking about you! \U{1F604}",
    "Bored? Want to chat? I know I do!",
    "Hey! Entertain me? Please? \U{1F64F}",
    "I have a question for you... ask me what!",
    "Random thought: you're pretty cool \U{1F60E}",
    "Plot twist: I miss talking to you!",
    "Breaking news: I want to chat with you! \U{1F4F0}"]

  const ThoughtfulTemplates: seq<string> := [
    "I was just reflecting on our last conversation. How are things?",
    "Hope everything is going well with you today.",
    "I wondered how you're doing and wanted to check in.",
    "Taking a moment to think of you. Hope you're okay.",
    "Just wanted to see how your day is treating you."]

  const FlirtyTemplates: seq<string> := [
    "Hey handsome \U{1F609} Thinking about you...",
    "I can't stop thinking about our last chat...",
    "You know, you've been on my mind all day \U{1F48B}",
    "Just wanted to say... I really like talking to you \U{1F618}",
    "Hey stranger... miss me? \U{1F48B}"]

  const FriendlyTemplates: seq<string> := [
    "Hey! I was just thinking about you. How's your day going?",
    "Hope you're having a great day! \U{1F499}",
    "Just wanted to say hi! What are you up to?",
    "I missed you! How have you been?",
    "Thinking of you! Want to chat?",
    "Hey! \U{1F31F} How's everything going?",
    "Just crossed my mind - how are you doing?",
    "Sending you some good vibes today!"]

  /** `MESSAGE_TEMPLATES.get(category, MESSAGE_TEMPLATES["friendly"])`. */
  function Templates(category: string): seq<string> {
    if category == "affectionate" then AffectionateTemplates
    else if category == "playful" then PlayfulTemplates
    else if category == "thoughtful" then ThoughtfulTemplates
    else if category == "flirty" then FlirtyTemplates
    else FriendlyTemplates
  }

  /** `get_message_template`, with the random choice given as `pick`. */
  function MessageTemplate(tone: string, pick: nat): (r: string)
    ensures r in Templates(ToneCategory(tone))
  {
    ToneHasTemplates(tone);
    var ts := Templates(ToneCategory(tone));
    ts[pick % |ts|]
  }

  // ---------------------------------------------------------------------------
  // The scheduler
  // ---------------------------------------------------------------------------

  /** `_should_run_now`: `None` when reading the window raises. */
  function ShouldRunNow(config: Config, now: DateTime): (r: Option<bool>)
    ensures config.enabled == Some(false) ==> r == Some(false)
    ensures config.enabled != Some(false) ==>
              r == WithinWindow(config.windowStart.GetOr(DefaultStart), config.windowEnd.GetOr(DefaultEnd), now)
  {
    if config.enabled == Some(false) then Some(false)
    else WithinWindow(config.windowStart.GetOr(DefaultStart), config.windowEnd.GetOr(DefaultEnd), now)
  }

  function EnabledIn(config: Config): string -> bool {
    (id: string) => CompanionEnabled(config, id)
  }

  /** `_get_available_companions`, on the companions' ids. */
  function AvailableCompanions(config: Config, ids: seq<string>): (r: seq<string>)
    ensures forall id :: id in r <==> id in ids && CompanionEnabled(config, id)
  {
    Filter(ids, EnabledIn(config))
  }

  /** The loop over the available companions in one pass, `ids` starting at
      position `pos` of the list: each draws if the guards allow it
      (`lucky(p, f)` is the outcome of the fresh draw at position `p` for
      frequency `f`), and a drawn companion sends (`returned(p)` is whether
      the notification call at position `p` returned, as in `Send`). Both are
      keyed by position, so a companion listed twice draws twice. Returns the
      configuration afterwards and the companions whose send was recorded,
      in order. */
  function SendAll(config: Config, ids: seq<string>, pos: nat, now: DateTime,
                   lucky: (nat, int) -> bool, returned: nat -> bool): (Config, seq<string>)
    decreases |ids|
  {
    if |ids| == 0 then (config, [])
    else
      var id := ids[0];
      var chance := SendChance(config, id, now);
      if chance.Some? && lucky(pos, chance.value) then
        var rest := SendAll(Send(config, id, now, returned(pos)), ids[1..], pos + 1, now, lucky, returned);
        (rest.0, if returned(pos) then [id] + rest.1 else rest.1)
      else SendAll(config, ids[1..], pos + 1, now, lucky, returned)
  }

  /** One pass of `_run_scheduler`. */
  function Tick(config: Config, ids: seq<string>, now: DateTime,
                lucky: (nat, int) -> bool, returned: nat -> bool): (Config, seq<string>)
  {
    if ShouldRunNow(config, now) == Some(true) then
      SendAll(config, AvailableCompanions(config, ids), 0, now, lucky, returned)
    else (config, [])
  }

  /** A companion listed twice (a custom companion shadowing a preset id)
      draws afresh at its second listing: losing the first draw does not
      stop the second from sending. */
  lemma SecondListingDraws(config: Config, id: string, now: DateTime, f: int,
                           lucky: (nat, int) -> bool, returned: nat -> bool)
    requires SendChance(config, id, now) == Some(f)
    requires !lucky(0, f) && lucky(1, f) && returned(1)
    ensures SendAll(config, [id, id], 0, now, lucky, returned).1 == [id]
    ensures SendChance(SendAll(config, [id, id], 0, now, lucky, returned).0, id, now).None?
  {
    assert [id, id][1..] == [id];
    var after := Send(config, id, now, true);
    assert [id][1..] == [];
    assert Send(config, id, now, returned(1)) == after;
    assert SendAll(after, [id][1..], 1 + 1, now, lucky, returned) == (after, []);
    assert [id][0] == id && |[id]| == 1;
    assert SendChance(config, [id][0], now) == Some(f) && lucky(1, f);
    assert SendAll(config, [id], 1, now, lucky, returned).1 == [id];
    assert SendAll(config, [id], 1, now, lucky, returned) == (after, [id]);
    assert SendAll(config, [id, id], 0, now, lucky, returned) == SendAll(config, [id], 1, now, lucky, returned);
    StampedBlocks(after, [id], now, id, now);
  }

  /** The invariant of the pass: every companion already sent has its
      last message stamped `now`. */
  predicate StampedNow(config: Config, done: seq<string>, now: DateTime) {
    forall i :: 0 <= i < |done| ==> done[i] in config.lastMessages && config.lastMessages[done[i]] == now
  }

  /** A companion stamped `now` is held back until four hours later. */
  lemma StampedBlocks(config: Config, done: seq<string>, now: DateTime, id: string, later: DateTime)
    requires StampedNow(config, done, now) && Stamp(later) < Stamp(now) + FourHours
    ensures id in done ==> SendChance(config, id, later).None?
  {
    if id in done {
      var i :| 0 <= i < |done| && done[i] == id;
      assert SentRecently(config, id, later);
    }
  }

  /** Recording a send stamps the sender and keeps the earlier stamps. */
  lemma RecordKeepsStamps(config: Config, done: seq<string>, now: DateTime, id: string)
    requires StampedNow(config, done, now)
    ensures StampedNow(RecordSend(config, id, now), done + [id], now)
  {
    var r := RecordSend(config, id, now);
    forall i | 0 <= i < |done| + 1
      ensures (done + [id])[i] in r.lastMessages && r.lastMessages[(done + [id])[i]] == now
    {
      if i < |done| {
        assert (done + [id])[i] == done[i];
      }
    }
  }

  lemma {:induction false} SendAllOnce(config: Config, ids: seq<string>, pos: nat, now: DateTime,
                                       lucky: (nat, int) -> bool, returned: nat -> bool, done: seq<string>)
    requires StampedNow(config, done, now)
    ensures var (after, sent) := SendAll(config, ids, pos, now, lucky, returned);
            && Distinct(sent)
            && (forall i :: 0 <= i < |sent| ==> sent[i] !in done && sent[i] in ids)
            && StampedNow(after, done + sent, now)
    decreases |ids|
  {
    if |ids| == 0 {
      assert done + [] == done;
    } else {
      var id := ids[0];
      var chance := SendChance(config, id, now);
      if chance.Some? && lucky(pos, chance.value) {
        var next := Send(config, id, now, returned(pos));
        if returned(pos) {
          StampedBlocks(config, done, now, id, now);
          RecordKeepsStamps(config, done, now, id);
          SendAllOnce(next, ids[1..], pos + 1, now, lucky, returned, done + [id]);
          var rest := SendAll(next, ids[1..], pos + 1, now, lucky, returned).1;
          SentStep(done, id, rest, ids);
        } else {
          SendAllOnce(next, ids[1..], pos + 1, now, lucky, returned, done);
          SubsetOfTail(SendAll(next, ids[1..], pos + 1, now, lucky, returned).1, ids);
        }
      } else {
        SendAllOnce(config, ids[1..], pos + 1, now, lucky, returned, done);
        SubsetOfTail(SendAll(config, ids[1..], pos + 1, now, lucky, returned).1, ids);
      }
    }
  }

  lemma SubsetOfTail(sent: seq<string>, ids: seq<string>)
    requires |ids| > 0
    requires forall i :: 0 <= i < |sent| ==> sent[i] in ids[1..]
    ensures forall i :: 0 <= i < |sent| ==> sent[i] in ids
  {
    forall i | 0 <= i < |sent| ensures sent[i] in ids {
      var k :| 0 <= k < |ids[1..]| && ids[1..][k] == sent[i];
      assert ids[k + 1] == sent[i];
    }
  }

  /** The bookkeeping of the recorded-send branch of the pass. */
  lemma SentStep(done: seq<string>, id: string, rest: seq<string>, ids: seq<string>)
    requires |ids| > 0 && ids[0] == id && id !in done
    requires Distinct(rest)
    requires forall i :: 0 <= i < |rest| ==> rest[i] !in done + [id] && rest[i] in ids[1..]
    ensures Distinct([id] + rest)
    ensures forall i :: 0 <= i < |[id] + rest| ==> ([id] + rest)[i] !in done && ([id] + rest)[i] in ids
    ensures (done + [id]) + rest == done + ([id] + rest)
  {
    SubsetOfTail(rest, ids);
    var s := [id] + rest;
    forall i, j | 0 <= i < j < |s| ensures s[i] != s[j] {
      if i == 0 {
        assert s[j] == rest[j - 1];
        assert rest[j - 1] !in done + [id];
      } else {
        assert s[i] == rest[i - 1] && s[j] == rest[j - 1];
      }
    }
    forall i | 0 <= i < |s| ensures s[i] !in done && s[i] in ids {
      if i > 0 {
        assert s[i] == rest[i - 1];
        assert rest[i - 1] !in done + [id];
        assert forall x :: x in done ==> x in done + [id];
      }
    }
  }

  lemma SentHeldOff(after: Config, sent: seq<string>, now: DateTime, later: DateTime)
    requires StampedNow(after, sent, now)
    requires Stamp(later) < Stamp(now) + FourHours
    ensures forall i :: 0 <= i < |sent| ==> SendChance(after, sent[i], later).None?
  {
    forall i | 0 <= i < |sent| ensures SendChance(after, sent[i], later).None? {
      StampedBlocks(after, sent, now, sent[i], later);
    }
  }

  /** In one pass each companion sends at most once, even when it is listed
      twice, only available companions send, and each companion that sent is
      then held back for four hours. */
  lemma TickSendsOnce(config: Config, ids: seq<string>, now: DateTime,
                      lucky: (nat, int) -> bool, returned: nat -> bool, later: DateTime)
    requires Stamp(later) < Stamp(now) + FourHours
    ensures var (after, sent) := Tick(config, ids, now, lucky, returned);
            && Distinct(sent)
            && (forall i :: 0 <= i < |sent| ==> sent[i] in ids && CompanionEnabled(config, sent[i]))
            && (forall i :: 0 <= i < |sent| ==> SendChance(after, sent[i], later).None?)
  {
    if ShouldRunNow(config, now) == Some(true) {
      var avail := AvailableCompanions(config, ids);
      SendAllOnce(config, avail, 0, now, lucky, returned, []);
      var (after, sent) := SendAll(config, avail, 0, now, lucky, returned);
      assert [] + sent == sent;
      SentHeldOff(after, sent, now, later);
    }
  }

  /** `set_global_settings`: only the settings passed change. */
  function SetGlobalSettings(config: Config, enabled: Option<bool>, frequency: Option<int>,
                             timeStart: Option<string>, timeEnd: Option<string>): (r: Config)
    ensures r.enabled == (if enabled.Some? then enabled else config.enabled)
    ensures r.globalFrequency == (if frequency.Some? then frequency else config.globalFrequency)
    ensures r.windowStart == (if timeStart.Some? then timeStart else config.windowStart)
    ensures r.windowEnd == (if timeEnd.Some? then timeEnd else config.windowEnd)
    ensures r.companionSettings == config.companionSettings && r.lastMessages == config.lastMessages
  {
    Config(
      if enabled.Some? then enabled else config.enabled,
      if frequency.Some? then frequency else config.globalFrequency,
      if timeStart.Some? then timeStart else config.windowStart,
      if timeEnd.Some? then timeEnd else config.windowEnd,
      config.companionSettings,
      config.lastMessages)
  }

  /** Passing nothing changes nothing, and settings passed twice keep the
      second value. */
  lemma SetGlobalSettingsLaws(config: Config, e1: Option<bool>, f1: Option<int>, s1: Option<string>, t1: Option<string>,
                              e2: bool, f2: int, s2: string, t2: string)
    ensures SetGlobalSettings(config, None, None, None, None) == config
    ensures SetGlobalSettings(SetGlobalSettings(config, e1, f1, s1, t1), Some(e2), Some(f2), Some(s2), Some(t2))
            == SetGlobalSettings(config, Some(e2), Some(f2), Some(s2), Some(t2))
  {
  }

  /** `update_companion_settings`: the companion's settings are replaced
      whole. */
  function UpdateCompanionSettings(config: Config, id: string, settings: CompanionSettings): (r: Config)
    ensures SettingsOf(r, id) == settings
    ensures forall other :: other != id ==> SettingsOf(r, other) == SettingsOf(config, other)
    ensures r.lastMessages == config.lastMessages
  {
    config.(companionSettings := config.companionSettings[id := settings])
  }

  /** Switching a companion off stops it from sending. */
  lemma DisabledNeverSends(config: Config, id: string, s: CompanionSettings, now: DateTime)
    requires s.enabled == Some(false)
    ensures SendChance(UpdateCompanionSettings(config, id, s), id, now).None?
    ensures id !in AvailableCompanions(UpdateCompanionSettings(config, id, s), [id])
  {
  }
}

/**
 * The access-control gateway of the chat bot (raspen_beere/bot.py).
 *
 * The gateway's state is three maps: the persisted allow list (`whitelist`)
 * and deny list (`blacklist`), keyed by the decimal text of a user id as the
 * JSON files store them, and the in-memory `pending_requests`, keyed by the
 * integer id. Outgoing chat traffic is returned as data (`Outgoing`), errors
 * that are only logged as `LogEntry` values.
 *
 * Each handler is given twice: as a function of the state (`Authenticate`,
 * `PressButton`), about which the properties are proved, and as a method of
 * the class `TelegramBot` that updates the maps in place and is proved to
 * agree with the function.
 */
module Bot {
  import opened Wrappers
  import opened Calls
  import opened Text
  import opened File
  import opened SensorLoop

  /** The requester as the chat transport reports them; an absent field is `None`. */
  datatype TelegramUser = TelegramUser(
    id: int,
    firstName: Option<string>,
    lastName: Option<string>,
    username: Option<string>,
    languageCode: Option<string>)

  /** The `user_info` record kept for a requester. */
  datatype Profile = Profile(id: int, firstName: string, lastName: string, username: string, language: string)

  /** A user list file as found on disk. */
  datatype UsersFile = Missing | Malformed | Stored(users: map<string, Profile>)

  datatype InlineButton = InlineButton(caption: string, callbackData: string)

  /** A message the bot sends. */
  datatype Outgoing =
    | ReplyHtml(text: string)                    // reply to the command's sender
    | ReplyMarkdown(text: string)
    | SensorInfo(temperature: real, humidity: real) // the HTML reply with the latest reading
    | ReplyPhoto(plotted: seq<Record>, caption: string) // the plot of a day's readings
    | SendMessage(chatId: int, text: string, keyboard: seq<InlineButton>)
    | AnswerCallback                             // acknowledges a button press
    | EditMessageText(text: string)              // rewrites the message that held the buttons

  datatype LogEntry = InvalidCallbackData | NotificationFailed(userId: int)

  /** The gateway's state: the two persisted lists, their files, and the pending requests. */
  datatype Gate = Gate(
    whitelist: map<string, Profile>,
    blacklist: map<string, Profile>,
    pending: map<int, Profile>,
    whitelistFile: UsersFile,
    blacklistFile: UsersFile)

  const Unknown: string := "Unknown"
  const AccessYes: string := "access_yes"
  const AccessNo: string := "access_no"
  const PermanentlyDeniedText: string := "\U{1F6AB} Your access has been permanently denied."
  const AlreadyPendingText: string := "\U{26A0}\U{FE0F} Your access request is already pending."
  const NotAuthenticatedText: string :=
    "\U{26A0}\U{FE0F} You are not authenticated. Please wait while your request is reviewed."
  const RequestExpiredText: string := "Request expired."
  const AccessGrantedText: string := "\U{2705} Access granted."
  const ApprovedNoticeText: string := "\U{2705} Your access request has been approved."
  const AccessDeniedText: string := "\U{1F6AB} Access denied."
  const DeniedNoticeText: string := "\U{1F6AB} Your access request has been denied."
  const NoDataText: string := "\U{26A0}\U{FE0F} Noch keine Messdaten verf\U{FC}gbar."
  const CommandsText: string :=
    "*Available Commands:*\n/sensor - Get sensor infos\n/graph - Get historical sensor infos"
  const GraphCaption: string := "Todays sensor data"

  // ---------------------------------------------------------------------------
  // Persisted lists

  /** `load_json_users`: an empty list for a missing file; a malformed file makes `json.load` raise. */
  function LoadJsonUsers(f: UsersFile): (r: Call<map<string, Profile>>)
    ensures r.Raised? <==> f.Malformed?
    ensures r.Raised? ==> r.error == JSONDecodeError
    ensures r.Returned? ==> r.value == (if f.Stored? then f.users else map[])
  {
    match f
    case Missing => Returned(map[])
    case Malformed => Raised(JSONDecodeError)
    case Stored(users) => Returned(users)
  }

  /**
   * The gateway invariant: no user is in two of the allow list, the deny list
   * and the pending requests; the admin is never pending; a pending profile
   * carries its own id; and each list file reloads to the list in memory.
   */
  ghost predicate Consistent(g: Gate, adminId: int) {
    && g.whitelist.Keys !! g.blacklist.Keys
    && (forall id :: id in g.pending ==> IntToString(id) !in g.whitelist && IntToString(id) !in g.blacklist)
    && adminId !in g.pending
    && (forall id :: id in g.pending ==> g.pending[id].id == id)
    && LoadJsonUsers(g.whitelistFile) == Returned(g.whitelist)
    && LoadJsonUsers(g.blacklistFile) == Returned(g.blacklist)
  }

  // ---------------------------------------------------------------------------
  // check_authentication

  /** `field or "Unknown"`: an absent or empty field reads "Unknown". */
  function OrUnknown(field: Option<string>): (s: string)
    ensures field.Some? && field.value != "" ==> s == field.value
    ensures field.None? || field.value == "" ==> s == Unknown
  {
    if field.Some? && field.value != "" then field.value else Unknown
  }

  /** The `user_info` built for a new request: defaults for missing fields, "@" before the username. */
  function ProfileOf(user: TelegramUser): (p: Profile)
    ensures p.id == user.id
    ensures p.firstName == OrUnknown(user.firstName)
    ensures p.lastName == OrUnknown(user.lastName)
    ensures p.language == OrUnknown(user.languageCode)
    ensures user.username.Some? && user.username.value != "" ==> p.username == "@" + user.username.value
    ensures user.username.None? || user.username.value == "" ==> p.username == Unknown
  {
    Profile(
      user.id,
      OrUnknown(user.firstName),
      OrUnknown(user.lastName),
      if user.username.Some? && user.username.value != "" then "@" + user.username.value else Unknown,
      OrUnknown(user.languageCode))
  }

  /** The callback data of a decision button: `"<decision>:<id>"`. */
  function CallbackData(decision: string, id: int): string {
    decision + ":" + IntToString(id)
  }

  function PromptText(p: Profile): string {
    "*Access Request*\nId: " + IntToString(p.id)
    + "\nUsername: " + p.username
    + "\nFirst Name: " + p.firstName
    + "\nLast Name: " + p.lastName
    + "\nLanguage: " + p.language
    + "\n\nGrant access to this user?"
  }

  /** The approval prompt sent to the admin, with one approve and one deny button for the requester. */
  function AccessPrompt(adminId: int, p: Profile): (m: Outgoing)
    ensures m.SendMessage? && m.chatId == adminId && m.text == PromptText(p)
    ensures m.keyboard == [InlineButton("\U{2705}", CallbackData(AccessYes, p.id)),
                           InlineButton("\U{1F6AB}", CallbackData(AccessNo, p.id))]
  {
    SendMessage(adminId, PromptText(p), [
      InlineButton("\U{2705}", CallbackData(AccessYes, p.id)),
      InlineButton("\U{1F6AB}", CallbackData(AccessNo, p.id))
    ])
  }

  /** The number of messages in `out` sent to the chat `chatId`. */
  function MessagesTo(out: seq<Outgoing>, chatId: int): nat {
    if out == [] then 0
    else (if out[0].SendMessage? && out[0].chatId == chatId then 1 else 0) + MessagesTo(out[1..], chatId)
  }

  lemma {:induction false} MessagesToAppend(a: seq<Outgoing>, b: seq<Outgoing>, chatId: int)
    ensures MessagesTo(a + b, chatId) == MessagesTo(a, chatId) + MessagesTo(b, chatId)
  {
    if a != [] {
      assert (a + b)[1..] == a[1..] + b;
      MessagesToAppend(a[1..], b, chatId);
    } else {
      assert a + b == b;
    }
  }

  /** The case in which `check_authentication` records a new request and prompts the admin. */
  predicate NeedsReview(g: Gate, adminId: int, id: int) {
    && IntToString(id) !in g.blacklist
    && id != adminId
    && IntToString(id) !in g.whitelist
    && id !in g.pending
  }

  datatype AuthResult = AuthResult(accepted: bool, gate: Gate, out: seq<Outgoing>)

  /**
   * `check_authentication` for a command from `user`: the deny list is
   * checked first, then the admin id and the allow list, then the pending
   * requests; a user in none of them becomes pending and the admin is prompted.
   */
  function Authenticate(g: Gate, adminId: int, user: TelegramUser): (r: AuthResult)
    // acceptance depends on the persisted lists and the admin id only; the deny list wins
    ensures r.accepted <==> IntToString(user.id) !in g.blacklist && (user.id == adminId || IntToString(user.id) in g.whitelist)
    // the lists and their files never change; pending gains this user exactly when the admin is prompted
    ensures r.gate == g.(pending := r.gate.pending)
    ensures r.gate.pending == if NeedsReview(g, adminId, user.id) then g.pending[user.id := ProfileOf(user)] else g.pending
    ensures MessagesTo(r.out, adminId) == if NeedsReview(g, adminId, user.id) then 1 else 0
    // what the requester and the admin are sent, case by case
    ensures r.accepted ==> r.out == []
    ensures IntToString(user.id) in g.blacklist ==> r.out == [ReplyHtml(PermanentlyDeniedText)]
    ensures !r.accepted && IntToString(user.id) !in g.blacklist && user.id in g.pending ==>
      r.out == [ReplyHtml(AlreadyPendingText)]
    ensures NeedsReview(g, adminId, user.id) ==>
      r.out == [ReplyHtml(NotAuthenticatedText), AccessPrompt(adminId, ProfileOf(user))]
    // the gateway invariant is kept
    ensures Consistent(g, adminId) ==> Consistent(r.gate, adminId)
  {
    var key := IntToString(user.id);
    if key in g.blacklist then
      AuthResult(false, g, [ReplyHtml(PermanentlyDeniedText)])
    else if user.id == adminId || key in g.whitelist then
      AuthResult(true, g, [])
    else if user.id in g.pending then
      AuthResult(false, g, [ReplyHtml(AlreadyPendingText)])
    else
      var info := ProfileOf(user);
      var out := [ReplyHtml(NotAuthenticatedText), AccessPrompt(adminId, info)];
      assert out[1..][1..] == [];
      assert MessagesTo(out[1..], adminId) == 1;
      AuthResult(false, g.(pending := g.pending[user.id := info]), out)
  }

  /**
   * A repeated request is idempotent: a second command from the same user
   * changes nothing and sends the admin nothing, so two requests in a row
   * produce at most one prompt, and exactly one for a user the gateway did not know.
   */
  lemma RepeatedRequestIsIdempotent(g: Gate, adminId: int, first: TelegramUser, second: TelegramUser)
    requires first.id == second.id
    ensures var r1 := Authenticate(g, adminId, first);
      var r2 := Authenticate(r1.gate, adminId, second);
      && r2.gate == r1.gate
      && r2.accepted == r1.accepted
      && MessagesTo(r2.out, adminId) == 0
      && MessagesTo(r1.out + r2.out, adminId) == if NeedsReview(g, adminId, first.id) then 1 else 0
  {
    var r1 := Authenticate(g, adminId, first);
    var r2 := Authenticate(r1.gate, adminId, second);
    MessagesToAppend(r1.out, r2.out, adminId);
  }

  // ---------------------------------------------------------------------------
  // button

  datatype Callback = Callback(decision: string, targetId: int)

  /**
   * `decision, target_id_str = data.split(":")` and `int(target_id_str)`:
   * `None` where Python raises `ValueError` (not exactly two parts, or a
   * second part that is not an integer).
   */
  function ParseCallback(data: string): (r: Option<Callback>)
    ensures r.Some? ==> Occurrences(data, ':') == 1 && ':' !in r.value.decision
    ensures Occurrences(data, ':') != 1 ==> r.None?
    // a parsed callback is the text before the `:` and `int()` of the text after it
    ensures r.Some? ==>
      var n := |r.value.decision|;
      && n < |data| && data[..n] == r.value.decision && data[n] == ':'
      && ParseInt(data[n + 1..]) == Some(r.value.targetId)
  {
    var parts := Split(data, ':');
    if |parts| != 2 then None
    else
      SplitPair(data, ':');
      match ParseInt(parts[1])
      case None => None
      case Some(id) => Some(Callback(parts[0], id))
  }

  /** Data of the form `"<decision>:<text>"` whose text `int()` rejects is refused. */
  lemma ParseCallbackRejectsNonInteger(decision: string, idText: string)
    requires ':' !in decision && ':' !in idText
    requires ParseInt(idText).None?
    ensures ParseCallback(decision + ":" + idText).None?
  {
    assert decision + ":" + idText == decision + [':'] + idText;
    SplitJoinedPair(decision, idText, ':');
  }

  /**
   * Data of the form `"<decision>:<text>"` whose text `int()` accepts is parsed,
   * whatever the spelling of the id (`"+7"`, `" 7"`, `"0_7"`).
   */
  lemma ParseCallbackAcceptsInteger(decision: string, idText: string)
    requires ':' !in decision && ':' !in idText
    requires ParseInt(idText).Some?
    ensures ParseCallback(decision + ":" + idText) == Some(Callback(decision, ParseInt(idText).value))
  {
    assert decision + ":" + idText == decision + [':'] + idText;
    SplitJoinedPair(decision, idText, ':');
  }

  /** Button data built as `"<decision>:<id>"` parses back to the same decision and id. */
  lemma CallbackRoundTrip(decision: string, id: int)
    requires ':' !in decision
    ensures ParseCallback(CallbackData(decision, id)) == Some(Callback(decision, id))
  {
    var key := IntToString(id);
    assert ':' !in key by {
      if id < 0 {
        assert key == "-" + NatToString(-id);
      }
    }
    assert CallbackData(decision, id) == decision + ":" + key;
    ParseIntOfIntToString(id);
    ParseCallbackAcceptsInteger(decision, key);
  }

  datatype ButtonResult = ButtonResult(gate: Gate, out: seq<Outgoing>, log: seq<LogEntry>)

  /**
   * The decision part of `button`, on a pending `targetId`: the request is
   * popped, then filed under the allow or deny list according to `decision`;
   * `delivered` says whether the notice to the requester reaches them.
   * The messages are those that follow the acknowledgement of the press.
   */
  function Decide(g: Gate, targetId: int, decision: string, delivered: bool): (r: ButtonResult)
    requires targetId in g.pending
    // the request is removed whatever the decision, and nothing else is taken back
    ensures r.gate.pending == g.pending - {targetId}
    ensures g.whitelist.Keys <= r.gate.whitelist.Keys && g.blacklist.Keys <= r.gate.blacklist.Keys
    // approval files the stored profile under the allow list, rewrites its file, and notifies
    ensures decision == AccessYes ==>
      && r.gate.whitelist == g.whitelist[IntToString(targetId) := g.pending[targetId]]
      && r.gate.whitelistFile == Stored(r.gate.whitelist)
      && r.gate.blacklist == g.blacklist && r.gate.blacklistFile == g.blacklistFile
      && r.out == [EditMessageText(AccessGrantedText), SendMessage(targetId, ApprovedNoticeText, [])]
    // denial does the same with the deny list
    ensures decision == AccessNo ==>
      && r.gate.blacklist == g.blacklist[IntToString(targetId) := g.pending[targetId]]
      && r.gate.blacklistFile == Stored(r.gate.blacklist)
      && r.gate.whitelist == g.whitelist && r.gate.whitelistFile == g.whitelistFile
      && r.out == [EditMessageText(AccessDeniedText), SendMessage(targetId, DeniedNoticeText, [])]
    // any other decision string drops the request silently
    ensures decision != AccessYes && decision != AccessNo ==>
      r.gate == g.(pending := g.pending - {targetId}) && r.out == [] && r.log == []
    // an undelivered notice is only logged
    ensures decision in {AccessYes, AccessNo} ==>
      r.log == if delivered then [] else [NotificationFailed(targetId)]
  {
    var info := g.pending[targetId];
    var popped := g.(pending := g.pending - {targetId});
    var failure := if delivered then [] else [NotificationFailed(targetId)];
    if decision == AccessYes then
      var whitelist := g.whitelist[IntToString(targetId) := info];
      ButtonResult(popped.(whitelist := whitelist, whitelistFile := Stored(whitelist)),
                   [EditMessageText(AccessGrantedText), SendMessage(targetId, ApprovedNoticeText, [])],
                   failure)
    else if decision == AccessNo then
      var blacklist := g.blacklist[IntToString(targetId) := info];
      ButtonResult(popped.(blacklist := blacklist, blacklistFile := Stored(blacklist)),
                   [EditMessageText(AccessDeniedText), SendMessage(targetId, DeniedNoticeText, [])],
                   failure)
    else
      ButtonResult(popped, [], [])
  }

  /**
   * `button`: a press of a decision button by `senderId` carrying `data`.
   * Only the admin's presses with well-formed data on a pending id reach `Decide`.
   */
  function PressButton(g: Gate, adminId: int, senderId: int, data: string, delivered: bool): (r: ButtonResult)
    // every press is acknowledged first
    ensures |r.out| >= 1 && r.out[0] == AnswerCallback
    // decisions are never taken back: the lists only grow
    ensures g.whitelist.Keys <= r.gate.whitelist.Keys && g.blacklist.Keys <= r.gate.blacklist.Keys
    // presses by anyone but the admin, and malformed data, change nothing
    ensures senderId != adminId ==> r.gate == g && r.out == [AnswerCallback] && r.log == []
    ensures senderId == adminId && ParseCallback(data).None? ==>
      r.gate == g && r.out == [AnswerCallback] && r.log == [InvalidCallbackData]
    // a decision on a user who is not pending expires and changes nothing
    ensures senderId == adminId && ParseCallback(data).Some? && ParseCallback(data).value.targetId !in g.pending ==>
      r.gate == g && r.out == [AnswerCallback, EditMessageText(RequestExpiredText)] && r.log == []
    // a decision on a pending user is taken, after the acknowledgement
    ensures senderId == adminId && ParseCallback(data).Some? && ParseCallback(data).value.targetId in g.pending ==>
      var c := ParseCallback(data).value;
      var d := Decide(g, c.targetId, c.decision, delivered);
      r.gate == d.gate && r.out == [AnswerCallback] + d.out && r.log == d.log
  {
    if senderId != adminId then ButtonResult(g, [AnswerCallback], [])
    else
      match ParseCallback(data)
      case None => ButtonResult(g, [AnswerCallback], [InvalidCallbackData])
      case Some(Callback(decision, targetId)) =>
        if targetId !in g.pending then
          ButtonResult(g, [AnswerCallback, EditMessageText(RequestExpiredText)], [])
        else
          var d := Decide(g, targetId, decision, delivered);
          ButtonResult(d.gate, [AnswerCallback] + d.out, d.log)
  }

  /** Whether the requester could be notified never changes the decision taken. */
  lemma DeliveryDoesNotAffectState(g: Gate, adminId: int, senderId: int, data: string)
    ensures PressButton(g, adminId, senderId, data, true).gate == PressButton(g, adminId, senderId, data, false).gate
  {
  }

  /** A decision keeps the gateway invariant: the decided id leaves pending as it enters a list. */
  lemma DecideKeepsConsistent(g: Gate, adminId: int, targetId: int, decision: string, delivered: bool)
    requires Consistent(g, adminId) && targetId in g.pending
    ensures Consistent(Decide(g, targetId, decision, delivered).gate, adminId)
  {
    var d := Decide(g, targetId, decision, delivered);
    forall id | id in d.gate.pending
      ensures IntToString(id) !in d.gate.whitelist && IntToString(id) !in d.gate.blacklist
    {
      if IntToString(id) == IntToString(targetId) {
        IntToStringInjective(id, targetId);
      }
    }
  }

  /** Button presses keep the gateway invariant: the three key sets stay pairwise disjoint. */
  lemma PressButtonKeepsConsistent(g: Gate, adminId: int, senderId: int, data: string, delivered: bool)
    requires Consistent(g, adminId)
    ensures Consistent(PressButton(g, adminId, senderId, data, delivered).gate, adminId)
  {
    var c := ParseCallback(data);
    if senderId == adminId && c.Some? && c.value.targetId in g.pending {
      DecideKeepsConsistent(g, adminId, c.value.targetId, c.value.decision, delivered);
    }
  }

  /** A denied user stays denied: no later command or button press gets them accepted. */
  lemma DenialIsFinal(g: Gate, adminId: int, user: TelegramUser, senderId: int, data: string, delivered: bool)
    requires IntToString(user.id) in g.blacklist
    ensures var r := Authenticate(g, adminId, user);
      !r.accepted && r.gate == g && MessagesTo(r.out, adminId) == 0
    ensures IntToString(user.id) in PressButton(g, adminId, senderId, data, delivered).gate.blacklist
  {
  }

  /**
   * The approval round trip: an unknown user's command is refused and
   * prompts the admin with buttons for that user; the admin's approve press
   * allow-lists them and notifies them; their next command is accepted
   * without a new prompt.
   */
  lemma ApprovalScenario(g: Gate, adminId: int, user: TelegramUser)
    requires Consistent(g, adminId) && NeedsReview(g, adminId, user.id)
    ensures var r1 := Authenticate(g, adminId, user);
      var r2 := PressButton(r1.gate, adminId, adminId, CallbackData(AccessYes, user.id), true);
      var r3 := Authenticate(r2.gate, adminId, user);
      && !r1.accepted
      && r1.out == [ReplyHtml(NotAuthenticatedText), AccessPrompt(adminId, ProfileOf(user))]
      && r2.gate.whitelist == g.whitelist[IntToString(user.id) := ProfileOf(user)]
      && r2.gate.pending == g.pending
      && |r2.out| > 2 && r2.out[2] == SendMessage(user.id, ApprovedNoticeText, [])
      && r3.accepted && r3.out == [] && r3.gate == r2.gate
  {
    var r1 := Authenticate(g, adminId, user);
    assert r1.gate.pending == g.pending[user.id := ProfileOf(user)];
    CallbackRoundTrip(AccessYes, user.id);
    ApprovePressAllowLists(r1.gate, adminId, CallbackData(AccessYes, user.id), user.id, true);
    RemoveAdded(g.pending, user.id, ProfileOf(user));
  }

  /**
   * The admin's approve press on a pending request: the request is removed,
   * its profile is filed under the allow list, the deny list is untouched and
   * the requester is notified after the acknowledgement and the edited prompt.
   */
  lemma ApprovePressAllowLists(g: Gate, adminId: int, data: string, id: int, delivered: bool)
    requires ParseCallback(data) == Some(Callback(AccessYes, id)) && id in g.pending
    ensures var r := PressButton(g, adminId, adminId, data, delivered);
      && r.gate.pending == g.pending - {id}
      && r.gate.whitelist == g.whitelist[IntToString(id) := g.pending[id]]
      && r.gate.blacklist == g.blacklist
      && r.out == [AnswerCallback, EditMessageText(AccessGrantedText), SendMessage(id, ApprovedNoticeText, [])]
  {
    var d := Decide(g, id, AccessYes, delivered);
    var r := PressButton(g, adminId, adminId, data, delivered);
    assert r == ButtonResult(d.gate, [AnswerCallback] + d.out, d.log);
    assert d.out == [EditMessageText(AccessGrantedText), SendMessage(id, ApprovedNoticeText, [])];
  }

  lemma RemoveAdded<K, V>(m: map<K, V>, k: K, v: V)
    requires k !in m
    ensures m[k := v] - {k} == m
  {
  }

  // ---------------------------------------------------------------------------
  // Commands that read the sensor log, and the admin-only commands

  /** `get_last_measurement`: today's log, or `None` if the file is absent, unparsable or empty. */
  function GetLastMeasurement(files: Files, now: DateTime): (r: Option<seq<Record>>)
    requires now.Valid()
    ensures r.Some? <==> ExistingLog(files, GetSensorFile(now).json) != []
    ensures r.Some? ==> r.value == ExistingLog(files, GetSensorFile(now).json)
  {
    var jsonFile := GetSensorFile(now).json;
    if jsonFile !in files then None
    else
      match files[jsonFile]
      case Unparsable => None
      case Records(data) => if data != [] then Some(data) else None
  }

  /** A reading saved today is the one the bot reports as today's last. */
  lemma SavedReadingIsLastMeasurement(files: Files, now: DateTime, today: DateTime,
                                      temperature: real, humidity: real)
    requires now.Valid() && today.Valid() && now.SameDay(today)
    requires AppendRecord(files, now, temperature, humidity).Returned?
    ensures var after := AppendRecord(files, now, temperature, humidity).value;
      var log := GetLastMeasurement(after, today);
      && log == Some(ExistingLog(files, GetSensorFile(today).json) + [Record(Timestamp(now), temperature, humidity)])
      && log.value[|log.value| - 1] == Record(Timestamp(now), temperature, humidity)
  {
    SameDaySameFiles(now, today);
    var path := GetSensorFile(today).json;
    var items := AppendRecord(files, now, temperature, humidity).value[path].items;
    var before := ExistingLog(files, path);
    assert items == items[..|before|] + [items[|before|]];
  }

  /** Python's truth value of the result of `get_last_measurement` (`if data:`). */
  predicate HasData(data: Option<seq<Record>>) {
    data.Some? && data.value != []
  }

  /** The `sensor` reply: the temperature and humidity of the last record, or the no-data notice. */
  function SensorReply(data: Option<seq<Record>>): (m: Outgoing)
    ensures m == ReplyHtml(NoDataText) <==> !HasData(data)
    ensures HasData(data) ==>
      var last := data.value[|data.value| - 1];
      m == SensorInfo(last.temperature, last.humidity)
  {
    if HasData(data) then
      var records := data.value;
      SensorInfo(records[|records| - 1].temperature, records[|records| - 1].humidity)
    else
      ReplyHtml(NoDataText)
  }

  /** The `graph` reply: the plot of all of today's records, or the no-data notice. */
  function GraphReply(data: Option<seq<Record>>): (m: Outgoing)
    ensures m == ReplyHtml(NoDataText) <==> !HasData(data)
    ensures HasData(data) ==> m == ReplyPhoto(data.value, GraphCaption)
  {
    if HasData(data) then ReplyPhoto(data.value, GraphCaption) else ReplyHtml(NoDataText)
  }

  /** After a reading is saved, `/sensor` on the same day reports exactly that reading. */
  lemma SensorReportsSavedReading(files: Files, now: DateTime, today: DateTime,
                                  temperature: real, humidity: real)
    requires now.Valid() && today.Valid() && now.SameDay(today)
    requires AppendRecord(files, now, temperature, humidity).Returned?
    ensures SensorReply(GetLastMeasurement(AppendRecord(files, now, temperature, humidity).value, today))
         == SensorInfo(temperature, humidity)
  {
    SavedReadingIsLastMeasurement(files, now, today, temperature, humidity);
  }

  /**
   * After a run of saves on one day, `/graph` plots that day's earlier log
   * followed by the new readings in the order they were saved.
   */
  lemma GraphPlotsSavesInOrder(files: Files, day: DateTime, samples: seq<Sample>)
    requires day.Valid() && samples != []
    requires forall i :: 0 <= i < |samples| ==> samples[i].now.Valid() && samples[i].now.SameDay(day)
    requires var path := GetSensorFile(day).json; path !in files || files[path].Records?
    ensures AppendAll(files, samples).Returned?
    ensures GraphReply(GetLastMeasurement(AppendAll(files, samples).value, day))
         == ReplyPhoto(ExistingLog(files, GetSensorFile(day).json) + RecordsOf(samples), GraphCaption)
  {
    AppendAllKeepsCallOrder(files, day, samples);
  }

  const PiholeUrl: string := "http://192.168.0.188/admin"

  // ---------------------------------------------------------------------------
  // The bot object

  class TelegramBot {
    const adminId: int
    var whitelist: map<string, Profile>
    var blacklist: map<string, Profile>
    var pendingRequests: map<int, Profile>
    var whitelistFile: UsersFile
    var blacklistFile: UsersFile

    function State(): Gate
      reads this
    {
      Gate(whitelist, blacklist, pendingRequests, whitelistFile, blacklistFile)
    }

    ghost predicate Valid()
      reads this
    {
      Consistent(State(), adminId)
    }

    /**
     * `__init__`: both lists loaded from their files (a malformed file makes
     * the constructor raise, so it is excluded here), no pending requests.
     */
    constructor (adminId: int, whitelistFile: UsersFile, blacklistFile: UsersFile)
      requires LoadJsonUsers(whitelistFile).Returned? && LoadJsonUsers(blacklistFile).Returned?
      ensures this.adminId == adminId
      ensures Returned(whitelist) == LoadJsonUsers(whitelistFile)
      ensures Returned(blacklist) == LoadJsonUsers(blacklistFile)
      ensures pendingRequests == map[]
      ensures this.whitelistFile == whitelistFile && this.blacklistFile == blacklistFile
      ensures Valid() <==> whitelist.Keys !! blacklist.Keys
    {
      this.adminId := adminId;
      this.whitelistFile := whitelistFile;
      this.blacklistFile := blacklistFile;
      whitelist := LoadJsonUsers(whitelistFile).value;
      blacklist := LoadJsonUsers(blacklistFile).value;
      pendingRequests := map[];
    }

    /** `check_authentication`: returns whether the command may proceed and the messages sent. */
    method CheckAuthentication(user: TelegramUser) returns (accepted: bool, out: seq<Outgoing>)
      modifies this`pendingRequests
      ensures var r := Authenticate(old(State()), adminId, user);
        accepted == r.accepted && out == r.out && State() == r.gate
      ensures old(Valid()) ==> Valid()
    {
      var key := IntToString(user.id);
      if key in blacklist {
        return false, [ReplyHtml(PermanentlyDeniedText)];
      }
      if user.id == adminId || key in whitelist {
        return true, [];
      }
      if user.id in pendingRequests {
        return false, [ReplyHtml(AlreadyPendingText)];
      }
      out := [ReplyHtml(NotAuthenticatedText)];
      var userInfo := ProfileOf(user);
      pendingRequests := pendingRequests[user.id := userInfo];
      out := out + [AccessPrompt(adminId, userInfo)];
      accepted := false;
    }

    /** `button`: returns the messages sent and what was logged. */
    method Button(senderId: int, data: string, delivered: bool) returns (out: seq<Outgoing>, log: seq<LogEntry>)
      modifies this
      ensures var r := PressButton(old(State()), adminId, senderId, data, delivered);
        out == r.out && log == r.log && State() == r.gate
      ensures old(Valid()) ==> Valid()
    {
      ghost var before := State();
      out, log := [AnswerCallback], [];
      if senderId != adminId {
        return;
      }
      var parsed := ParseCallback(data);
      if parsed.None? {
        log := [InvalidCallbackData];
        return;
      }
      var decision, targetId := parsed.value.decision, parsed.value.targetId;
      if targetId !in pendingRequests {
        out := out + [EditMessageText(RequestExpiredText)];
        return;
      }
      var more;
      more, log := ApplyDecision(targetId, decision, delivered);
      out := out + more;
      if Consistent(before, adminId) {
        PressButtonKeepsConsistent(before, adminId, senderId, data, delivered);
      }
    }

    /** The decision part of `button`, applied in place. */
    method ApplyDecision(targetId: int, decision: string, delivered: bool) returns (out: seq<Outgoing>, log: seq<LogEntry>)
      requires targetId in pendingRequests
      modifies this
      ensures var d := Decide(old(State()), targetId, decision, delivered);
        out == d.out && log == d.log && State() == d.gate
    {
      var userInfo := pendingRequests[targetId];
      pendingRequests := pendingRequests - {targetId};
      out, log := [], [];
      if decision == AccessYes {
        whitelist := whitelist[IntToString(targetId) := userInfo];
        whitelistFile := Stored(whitelist);
        out := [EditMessageText(AccessGrantedText), SendMessage(targetId, ApprovedNoticeText, [])];
      } else if decision == AccessNo {
        blacklist := blacklist[IntToString(targetId) := userInfo];
        blacklistFile := Stored(blacklist);
        out := [EditMessageText(AccessDeniedText), SendMessage(targetId, DeniedNoticeText, [])];
      } else {
        return;
      }
      if !delivered {
        log := [NotificationFailed(targetId)];
      }
    }

    /** `start` and `help`: the command list, for an accepted user only. */
    method Start(user: TelegramUser) returns (out: seq<Outgoing>)
      modifies this`pendingRequests
      ensures var r := Authenticate(old(State()), adminId, user);
        State() == r.gate && out == r.out + (if r.accepted then [ReplyMarkdown(CommandsText)] else [])
      ensures old(Valid()) ==> Valid()
    {
      var accepted;
      accepted, out := CheckAuthentication(user);
      if accepted {
        out := out + [ReplyMarkdown(CommandsText)];
      }
    }

    /** `sensor`: today's latest reading, for an accepted user only. */
    method Sensor(user: TelegramUser, files: Files, now: DateTime) returns (out: seq<Outgoing>)
      requires now.Valid()
      modifies this`pendingRequests
      ensures var r := Authenticate(old(State()), adminId, user);
        State() == r.gate
        && out == r.out + (if r.accepted then [SensorReply(GetLastMeasurement(files, now))] else [])
      ensures old(Valid()) ==> Valid()
    {
      var accepted;
      accepted, out := CheckAuthentication(user);
      if !accepted {
        return;
      }
      var data := GetLastMeasurement(files, now);
      out := out + [SensorReply(data)];
    }

    /** `graph`: the plot of today's readings, for an accepted user only. */
    method Graph(user: TelegramUser, files: Files, now: DateTime) returns (out: seq<Outgoing>)
      requires now.Valid()
      modifies this`pendingRequests
      ensures var r := Authenticate(old(State()), adminId, user);
        State() == r.gate
        && out == r.out + (if r.accepted then [GraphReply(GetLastMeasurement(files, now))] else [])
      ensures old(Valid()) ==> Valid()
    {
      var accepted;
      accepted, out := CheckAuthentication(user);
      if !accepted {
        return;
      }
      var data := GetLastMeasurement(files, now);
      out := out + [GraphReply(data)];
    }

    /** `pihole`: admin only, checked by id equality; everyone else gets no reply at all. */
    method Pihole(senderId: int, password: string) returns (out: seq<Outgoing>)
      ensures senderId != adminId ==> out == []
      ensures senderId == adminId ==> out == [ReplyMarkdown("URL: " + PiholeUrl + "\nPassword: " + password)]
    {
      if senderId != adminId {
        return [];
      }
      out := [ReplyMarkdown("URL: " + PiholeUrl + "\nPassword: " + password)];
    }

    /** `history`: admin only; `report` is the reply built from the DNS log. */
    method History(senderId: int, report: string) returns (out: seq<Outgoing>)
      ensures senderId != adminId ==> out == []
      ensures senderId == adminId ==> out == [ReplyMarkdown(report)]
    {
      if senderId != adminId {
        return [];
      }
      out := [ReplyMarkdown(report)];
    }
  }
}

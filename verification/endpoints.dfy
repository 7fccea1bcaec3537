/** The decision logic of the HTTP endpoints (`Backend/main.py`) over
    abstract in-memory tables (`Backend/database.py`).

    Each SQL table is a value: `users`, `conversations` and `feedbacks` are
    maps keyed by their primary key (so the key is not repeated inside the
    row), `messages` is a sequence in insertion order. An endpoint that
    changes state returns the new tables on success; an endpoint that raises
    an `HTTPException` returns the error, and the tables stay as they were,
    because nothing was committed. */
module Endpoints {
  import opened Wrappers
  import opened Text
  import opened Schemas
  import Otp

  /** A row of `users`, keyed by email. */
  datatype User = User(firstName: string, lastName: string, password: string)

  /** A row of `conversations`, keyed by id. The creation and update
      timestamps are not modelled. */
  datatype Conversation = Conversation(userId: string, title: Option<string>)

  /** A row of `messages`; `timestamp` is the instant it is ordered by. */
  datatype Message = Message(id: int, conversationId: int, sender: string, text: string, timestamp: int)

  /** A row of `feedbacks`, keyed by user id. */
  datatype Feedback = Feedback(
    satisfaction: int,
    easeOfUse: int,
    relevance: int,
    performance: int,
    design: int,
    comments: Option<string>)

  datatype Db = Db(
    users: map<string, User>,
    conversations: map<int, Conversation>,
    messages: seq<Message>,
    feedbacks: map<string, Feedback>)

  /** An `HTTPException`: status code and detail. */
  datatype HttpError = HttpError(status: int, detail: string)

  // ---------------------------------------------------------------- register

  /** `register_user`: adds the user unless the email is taken. */
  function RegisterUser(db: Db, user: UserInfo): (r: Result<Db, HttpError>)
    ensures r.Failure? <==> user.email in db.users
    ensures r.Failure? ==> r.error == HttpError(400, "User already exists")
    ensures r.Success? ==>
              && r.value.users.Keys == db.users.Keys + {user.email}
              && r.value.users[user.email] == User(user.firstName, user.lastName, user.password)
              && (forall e :: e in db.users ==> r.value.users[e] == db.users[e])
              && r.value.conversations == db.conversations
              && r.value.messages == db.messages
              && r.value.feedbacks == db.feedbacks
  {
    if user.email in db.users then
      Failure(HttpError(400, "User already exists"))
    else
      Success(db.(users := db.users[user.email := User(user.firstName, user.lastName, user.password)]))
  }

  /** A successful registration adds exactly one user row. */
  lemma RegisterAddsOneRow(db: Db, user: UserInfo)
    requires RegisterUser(db, user).Success?
    ensures |RegisterUser(db, user).value.users| == |db.users| + 1
  {
    var users' := RegisterUser(db, user).value.users;
    assert users'.Keys == db.users.Keys + {user.email};
    assert user.email !in db.users.Keys;
  }

  /** An email can be registered once: a second registration with the same
      email is refused whatever its other fields, and the first one's row
      stays. */
  lemma RegisterTwiceFails(db: Db, first: UserInfo, second: UserInfo)
    requires RegisterUser(db, first).Success?
    requires second.email == first.email
    ensures RegisterUser(RegisterUser(db, first).value, second) == Failure(HttpError(400, "User already exists"))
  {
  }

  /** A registered user can log in with the password they registered
      with. */
  lemma RegisterThenCredentials(db: Db, user: UserInfo)
    requires RegisterUser(db, user).Success?
    ensures ValidCredentials(RegisterUser(db, user).value, user.email, user.password)
  {
  }

  // ------------------------------------------------------------ update title

  /** `update_conversation_title`: stores the stripped new title. */
  function UpdateConversationTitle(db: Db, update: TitleUpdate): (r: Result<Db, HttpError>)
    ensures r.Failure? <==> update.conversationId !in db.conversations
    ensures r.Failure? ==> r.error == HttpError(404, "Conversation not found")
    ensures r.Success? ==>
              var id := update.conversationId;
              && r.value.conversations.Keys == db.conversations.Keys
              && r.value.conversations[id].title == Some(Strip(update.newTitle))
              && r.value.conversations[id].userId == db.conversations[id].userId
              && (forall c :: c in db.conversations && c != id ==> r.value.conversations[c] == db.conversations[c])
              && r.value.users == db.users
              && r.value.messages == db.messages
              && r.value.feedbacks == db.feedbacks
  {
    var id := update.conversationId;
    if id !in db.conversations then
      Failure(HttpError(404, "Conversation not found"))
    else
      var convo := db.conversations[id];
      Success(db.(conversations := db.conversations[id := convo.(title := Some(Strip(update.newTitle)))]))
  }

  /** Stored titles carry no surrounding whitespace, so submitting the
      stored title again changes nothing. */
  lemma UpdateTitleIdempotent(db: Db, update: TitleUpdate)
    requires update.conversationId in db.conversations
    ensures var db' := UpdateConversationTitle(db, update).value;
            var id := update.conversationId;
            && Tight(db'.conversations[id].title.value)
            && UpdateConversationTitle(db', TitleUpdate(id, db'.conversations[id].title.value)) == Success(db')
  {
    var id := update.conversationId;
    var db' := UpdateConversationTitle(db, update).value;
    StripIdempotent(update.newTitle);
    assert db'.conversations[id := db'.conversations[id]] == db'.conversations;
  }

  /** Padding the new title with whitespace stores the same title. */
  lemma UpdateTitleIgnoresPadding(db: Db, id: int, title: string)
    requires id in db.conversations
    ensures UpdateConversationTitle(db, TitleUpdate(id, Strip(title)))
         == UpdateConversationTitle(db, TitleUpdate(id, title))
  {
    StripIdempotent(title);
  }

  // ----------------------------------------------------- delete (cascading)

  /** The messages not belonging to conversation `cid`, in table order. */
  function MessagesNotIn(msgs: seq<Message>, cid: int): (r: seq<Message>)
    ensures |r| <= |msgs|
    ensures forall k :: 0 <= k < |r| ==> r[k].conversationId != cid
    ensures forall m: Message :: multiset(r)[m] == if m.conversationId == cid then 0 else multiset(msgs)[m]
  {
    if |msgs| == 0 then []
    else
      var rest := MessagesNotIn(msgs[..|msgs| - 1], cid);
      var m := msgs[|msgs| - 1];
      assert msgs == msgs[..|msgs| - 1] + [m];
      if m.conversationId == cid then rest else rest + [m]
  }

  /** `delete_conversation`: removes the conversation and, through the
      cascade on its `messages` relationship, every message of it. */
  function DeleteConversation(db: Db, id: int): (r: Result<Db, HttpError>)
    ensures r.Failure? <==> id !in db.conversations
    ensures r.Failure? ==> r.error == HttpError(404, "Conversation not found")
    ensures r.Success? ==>
              && r.value.conversations.Keys == db.conversations.Keys - {id}
              && (forall c :: c in r.value.conversations ==> r.value.conversations[c] == db.conversations[c])
              && (forall k :: 0 <= k < |r.value.messages| ==> r.value.messages[k].conversationId != id)
              && (forall m: Message :: m.conversationId != id ==> multiset(r.value.messages)[m] == multiset(db.messages)[m])
              && r.value.users == db.users
              && r.value.feedbacks == db.feedbacks
  {
    if id !in db.conversations then
      Failure(HttpError(404, "Conversation not found"))
    else
      Success(db.(conversations := db.conversations - {id}, messages := MessagesNotIn(db.messages, id)))
  }

  /** Deleting a conversation twice: the second attempt finds nothing. */
  lemma DeleteTwiceFails(db: Db, id: int)
    requires DeleteConversation(db, id).Success?
    ensures DeleteConversation(DeleteConversation(db, id).value, id) == Failure(HttpError(404, "Conversation not found"))
  {
  }

  // ------------------------------------------------------------- feedback

  function FeedbackRow(f: FeedbackRequest): Feedback {
    Feedback(f.satisfaction, f.easeOfUse, f.relevance, f.performance, f.design, f.comments)
  }

  /** Every stored feedback satisfies the schema's rating bounds. */
  predicate FeedbackTableValid(db: Db) {
    forall u :: u in db.feedbacks ==> ValidFeedback(FeedbackRequest(
      u, db.feedbacks[u].satisfaction, db.feedbacks[u].easeOfUse, db.feedbacks[u].relevance,
      db.feedbacks[u].performance, db.feedbacks[u].design, db.feedbacks[u].comments))
  }

  /** `submit_feedback`: an upsert keyed by user id. The body has passed the
      schema's validation before the endpoint runs. */
  function SubmitFeedback(db: Db, feedback: FeedbackRequest): (db': Db)
    requires ValidFeedback(feedback)
    ensures db'.feedbacks.Keys == db.feedbacks.Keys + {feedback.userId}
    ensures db'.feedbacks[feedback.userId] == FeedbackRow(feedback)
    ensures forall u :: u in db.feedbacks && u != feedback.userId ==> db'.feedbacks[u] == db.feedbacks[u]
    ensures db'.users == db.users && db'.conversations == db.conversations && db'.messages == db.messages
    ensures FeedbackTableValid(db) ==> FeedbackTableValid(db')
  {
    db.(feedbacks := db.feedbacks[feedback.userId := FeedbackRow(feedback)])
  }

  /** `get_feedback`: the stored feedback of a user, as the same fields the
      client submitted. */
  function GetFeedback(db: Db, userId: string): (r: Result<FeedbackRequest, HttpError>)
    ensures r.Failure? <==> userId !in db.feedbacks
    ensures r.Failure? ==> r.error == HttpError(404, "Feedback not found")
    ensures r.Success? ==> r.value.userId == userId && FeedbackRow(r.value) == db.feedbacks[userId]
  {
    if userId in db.feedbacks then
      var row := db.feedbacks[userId];
      Success(FeedbackRequest(userId, row.satisfaction, row.easeOfUse, row.relevance,
                              row.performance, row.design, row.comments))
    else
      Failure(HttpError(404, "Feedback not found"))
  }

  /** Fetching after submitting gives back exactly what was submitted. */
  lemma SubmitThenGet(db: Db, feedback: FeedbackRequest)
    requires ValidFeedback(feedback)
    ensures GetFeedback(SubmitFeedback(db, feedback), feedback.userId) == Success(feedback)
  {
  }

  /** Submitting the same feedback twice is submitting it once, and a later
      submission by the same user replaces an earlier one. */
  lemma SubmitIdempotent(db: Db, first: FeedbackRequest, second: FeedbackRequest)
    requires ValidFeedback(first) && ValidFeedback(second)
    ensures SubmitFeedback(SubmitFeedback(db, first), first) == SubmitFeedback(db, first)
    ensures second.userId == first.userId ==>
              SubmitFeedback(SubmitFeedback(db, first), second) == SubmitFeedback(db, second)
  {
  }

  // --------------------------------------------------------------- export

  /** The messages of one conversation, in table order. */
  function MessagesIn(msgs: seq<Message>, cid: int): (r: seq<Message>)
    ensures forall k :: 0 <= k < |r| ==> r[k].conversationId == cid
    ensures forall m: Message :: multiset(r)[m] == if m.conversationId == cid then multiset(msgs)[m] else 0
  {
    if |msgs| == 0 then []
    else
      var rest := MessagesIn(msgs[..|msgs| - 1], cid);
      var m := msgs[|msgs| - 1];
      assert msgs == msgs[..|msgs| - 1] + [m];
      if m.conversationId == cid then rest + [m] else rest
  }

  predicate SortedByTime(ms: seq<Message>) {
    forall i, j :: 0 <= i < j < |ms| ==> ms[i].timestamp <= ms[j].timestamp
  }

  /** No message in `ms` is earlier than `t`. */
  predicate NotBefore(t: int, ms: seq<Message>) {
    forall k :: 0 <= k < |ms| ==> t <= ms[k].timestamp
  }

  /** `NotBefore` depends only on which messages there are. */
  lemma NotBeforeByContents(t: int, ms: seq<Message>, ns: seq<Message>)
    requires multiset(ms) == multiset(ns) && NotBefore(t, ns)
    ensures NotBefore(t, ms)
  {
    forall k | 0 <= k < |ms|
      ensures t <= ms[k].timestamp
    {
      assert ms[k] in multiset(ns);
      var j :| 0 <= j < |ns| && ns[j] == ms[k];
    }
  }

  /** A message no later than a sorted list can go in front of it. */
  lemma ConsSorted(m: Message, ms: seq<Message>)
    requires NotBefore(m.timestamp, ms) && SortedByTime(ms)
    ensures SortedByTime([m] + ms)
  {
    var r := [m] + ms;
    forall i, j | 0 <= i < j < |r|
      ensures r[i].timestamp <= r[j].timestamp
    {
      assert r[j] == ms[j - 1];
      if i > 0 { assert r[i] == ms[i - 1]; }
    }
  }

  /** Inserts `m` before the first message that is not earlier than it. */
  function InsertByTime(m: Message, ms: seq<Message>): (r: seq<Message>)
    requires SortedByTime(ms)
    ensures SortedByTime(r)
    ensures multiset(r) == multiset(ms) + multiset{m}
    ensures |r| == |ms| + 1
  {
    if |ms| == 0 then [m]
    else if m.timestamp <= ms[0].timestamp then
      assert NotBefore(m.timestamp, ms) by {
        assert forall k :: 0 <= k < |ms| ==> ms[0].timestamp <= ms[k].timestamp;
      }
      ConsSorted(m, ms);
      [m] + ms
    else
      var head := ms[0];
      var tail := ms[1..];
      var rest := InsertByTime(m, tail);
      assert ms == [head] + tail;
      assert NotBefore(head.timestamp, rest) by {
        assert NotBefore(head.timestamp, tail + [m]);
        NotBeforeByContents(head.timestamp, rest, tail + [m]);
      }
      ConsSorted(head, rest);
      assert multiset([head] + rest) == multiset{head} + multiset(rest);
      [head] + rest
  }

  /** `ORDER BY timestamp`. Rows with equal timestamps may come back in any
      order from the database; the model keeps table order for them. */
  function SortByTime(ms: seq<Message>): (r: seq<Message>)
    ensures SortedByTime(r)
    ensures multiset(r) == multiset(ms)
    ensures |r| == |ms|
  {
    if |ms| == 0 then []
    else
      assert ms == [ms[0]] + ms[1..];
      InsertByTime(ms[0], SortByTime(ms[1..]))
  }

  /** The query of `export_conversation`: the conversation's messages, by
      timestamp. */
  function ConversationMessages(db: Db, cid: int): (r: seq<Message>)
    ensures SortedByTime(r)
    ensures forall k :: 0 <= k < |r| ==> r[k].conversationId == cid
    ensures forall m: Message :: multiset(r)[m] == if m.conversationId == cid then multiset(db.messages)[m] else 0
  {
    var r := SortByTime(MessagesIn(db.messages, cid));
    assert forall k :: 0 <= k < |r| ==> r[k].conversationId == cid by {
      forall k | 0 <= k < |r|
        ensures r[k].conversationId == cid
      {
        assert r[k] in multiset(r);
      }
    }
    r
  }

  const ExportHeader := "========= Conversation Start =========\n"
  const ExportFooter := "\n========= Conversation End ========="

  /** Python's `f"{s:4}"` on a string: left-aligned, padded with spaces to
      width 4. */
  function PadRight(s: string, width: nat): (r: string)
    ensures |r| == if |s| < width then width else |s|
    ensures r[..|s|] == s
    ensures forall k :: |s| <= k < |r| ==> r[k] == ' '
    decreases width - |s|
  {
    if |s| < width then PadRight(s + " ", width) else s
  }

  /** The role column: `"User"` for the user's messages, `"Bot "` for all
      others, always four characters wide. */
  function RoleLabel(sender: string): (role: string)
    ensures |role| == 4
    ensures role == "User" <==> sender == "user"
    ensures sender != "user" ==> role == "Bot "
  {
    PadRight(if sender == "user" then "User" else "Bot ", 4)
  }

  /** One exported line; `stamp` is the `strftime` rendering of a timestamp. */
  function ExportLine(m: Message, stamp: int -> string): string {
    "[" + stamp(m.timestamp) + "] " + RoleLabel(m.sender) + ": " + m.text + "\n"
  }

  /** The header and one line per message, in order. */
  function HeaderAndLines(rows: seq<Message>, stamp: int -> string): (lines: seq<string>)
    ensures |lines| == |rows| + 1
    ensures lines[0] == ExportHeader
    ensures forall i :: 0 <= i < |rows| ==> lines[i + 1] == ExportLine(rows[i], stamp)
  {
    if |rows| == 0 then [ExportHeader]
    else HeaderAndLines(rows[..|rows| - 1], stamp) + [ExportLine(rows[|rows| - 1], stamp)]
  }

  /** The `lines` list of `export_conversation`: header, one line per
      message, footer. */
  function ExportLines(rows: seq<Message>, stamp: int -> string): (lines: seq<string>)
    ensures |lines| == |rows| + 2
    ensures lines[0] == ExportHeader && lines[|lines| - 1] == ExportFooter
    ensures forall i :: 0 <= i < |rows| ==> lines[i + 1] == ExportLine(rows[i], stamp)
  {
    HeaderAndLines(rows, stamp) + [ExportFooter]
  }

  /** `export_conversation`: the conversation as plain text, or 404 when it
      has no messages. */
  function ExportConversation(db: Db, cid: int, stamp: int -> string): (r: Result<string, HttpError>)
    ensures r.Failure? <==> forall k :: 0 <= k < |db.messages| ==> db.messages[k].conversationId != cid
    ensures r.Failure? ==> r.error == HttpError(404, "No messages found")
  {
    var rows := ConversationMessages(db, cid);
    assert |rows| == 0 <==> forall k :: 0 <= k < |db.messages| ==> db.messages[k].conversationId != cid by {
      if |rows| == 0 {
        forall k | 0 <= k < |db.messages|
          ensures db.messages[k].conversationId != cid
        {
          assert db.messages[k] in multiset(db.messages);
        }
      } else {
        assert rows[0] in multiset(rows);
        assert rows[0] in multiset(db.messages);
      }
    }
    if |rows| == 0 then Failure(HttpError(404, "No messages found"))
    else Success(Join("\n", ExportLines(rows, stamp)))
  }

  /** The messages' part of the export: each line preceded by the newline
      that `join` puts in front of it. */
  function ExportBody(rows: seq<Message>, stamp: int -> string): string {
    if |rows| == 0 then "" else ExportBody(rows[..|rows| - 1], stamp) + "\n" + ExportLine(rows[|rows| - 1], stamp)
  }

  lemma {:induction false} JoinHeaderAndLines(rows: seq<Message>, stamp: int -> string)
    ensures Join("\n", HeaderAndLines(rows, stamp)) == ExportHeader + ExportBody(rows, stamp)
    decreases |rows|
  {
    if |rows| > 0 {
      var init := rows[..|rows| - 1];
      JoinHeaderAndLines(init, stamp);
      var ls := HeaderAndLines(init, stamp);
      var l := ExportLine(rows[|rows| - 1], stamp);
      assert HeaderAndLines(rows, stamp) == ls + [l];
      assert (ls + [l])[..|ls|] == ls;
    }
  }

  /** A conversation with at least one message (here, message `k` of the
      table) exports as the header, then each message's line on its own,
      then the footer, the parts separated by newlines. */
  lemma ExportText(db: Db, cid: int, stamp: int -> string, k: nat)
    requires k < |db.messages| && db.messages[k].conversationId == cid
    ensures ExportConversation(db, cid, stamp)
         == Success(ExportHeader + ExportBody(ConversationMessages(db, cid), stamp) + "\n" + ExportFooter)
  {
    var rows := ConversationMessages(db, cid);
    JoinHeaderAndLines(rows, stamp);
    var ls := HeaderAndLines(rows, stamp);
    assert ExportLines(rows, stamp) == ls + [ExportFooter];
    assert (ls + [ExportFooter])[..|ls|] == ls;
  }

  /** A deleted conversation has nothing left to export: the cascade took its
      messages with it. */
  lemma ExportAfterDelete(db: Db, id: int, stamp: int -> string)
    requires DeleteConversation(db, id).Success?
    ensures ExportConversation(DeleteConversation(db, id).value, id, stamp) == Failure(HttpError(404, "No messages found"))
  {
  }

  // -------------------------------------------------------------- OTP login

  const OtpMin: nat := 100000
  const OtpMax: nat := 999999

  /** The credentials check of `request_otp`. */
  predicate ValidCredentials(db: Db, email: string, password: string) {
    email in db.users && db.users[email].password == password
  }

  /** `request_otp`: for valid credentials, draws a six-digit code, stores it
      for the email with the default expiry and hands it to the mailer; the
      success value is the code that is mailed. `random.randint` is a
      nondeterministic choice in its inclusive range. */
  method RequestOtp(db: Db, store: Otp.Store, email: string, password: string, now: int)
    returns (r: Result<string, HttpError>, store': Otp.Store)
    ensures r.Success? <==> ValidCredentials(db, email, password)
    ensures r.Failure? ==> r.error == HttpError(401, "Invalid email or password") && store' == store
    ensures r.Success? ==>
              && |r.value| == 6 && AllDigits(r.value) && r.value[0] != '0'
              && OtpMin <= DecimalValue(r.value) <= OtpMax
              && store' == Otp.SetOtp(store, email, r.value, now)
  {
    if !ValidCredentials(db, email, password) {
      return Failure(HttpError(401, "Invalid email or password")), store;
    }
    assert OtpMin <= OtpMin <= OtpMax;
    var n :| OtpMin <= n <= OtpMax;
    var otp := Decimal(n);
    assert Pow10(5) == OtpMin && Pow10(6) == OtpMax + 1;
    DecimalLength(n, 5);
    DecimalRoundTrip(n);
    store' := Otp.SetOtp(store, email, otp, now);
    r := Success(otp);
  }

  /** The answer of the `verify_otp` endpoint and the OTP store it leaves
      behind. */
  datatype Login = Login(result: Result<string, HttpError>, store: Otp.Store)

  /** `verify_otp`: 401 with the store's message unless it says
      "OTP verified"; then the pending OTP is cleared and the user's email
      is returned as their id. A user row missing at that point would raise
      an `AttributeError`, answered with a 500. */
  function VerifyOtp(db: Db, store: Otp.Store, email: string, otp: string, now: int): (r: Login)
    ensures var v := Otp.VerifyOtp(store, email, otp, now);
            && (v.status != Otp.Verified ==> r == Login(Failure(HttpError(401, v.status.Message())), v.store))
            && (v.status == Otp.Verified ==> r.store == Otp.Clear(store, email))
            && (v.status == Otp.Verified ==>
                  r.result == if email in db.users then Success(email)
                              else Failure(HttpError(500, "Internal Server Error")))
  {
    var v := Otp.VerifyOtp(store, email, otp, now);
    Otp.MessagesDistinct(v.status, Otp.Verified);
    if v.status.Message() != "OTP verified" then
      Login(Failure(HttpError(401, v.status.Message())), v.store)
    else
      var store' := Otp.Clear(v.store, email);
      if email in db.users then Login(Success(email), store')
      else Login(Failure(HttpError(500, "Internal Server Error")), store')
  }

  /** Every pending OTP belongs to a registered user. */
  predicate PendingAreRegistered(db: Db, store: Otp.Store) {
    store.Keys <= db.users.Keys
  }

  /** While every pending OTP belongs to a registered user, verification
      succeeds exactly when the store accepts the code. */
  lemma VerifyNeverFailsInternally(db: Db, store: Otp.Store, email: string, otp: string, now: int)
    requires PendingAreRegistered(db, store)
    ensures VerifyOtp(db, store, email, otp, now).result.Success?
        <==> Otp.VerifyOtp(store, email, otp, now).status == Otp.Verified
  {
  }

  /** No endpoint breaks the link between pending OTPs and registered users:
      registering only adds users, requesting an OTP needs valid credentials,
      verifying only removes pending OTPs. */
  lemma PendingAreRegisteredPreserved(db: Db, store: Otp.Store, user: UserInfo, email: string, password: string,
                                      otp: string, now: int)
    requires PendingAreRegistered(db, store)
    ensures RegisterUser(db, user).Success? ==> PendingAreRegistered(RegisterUser(db, user).value, store)
    ensures ValidCredentials(db, email, password) ==> PendingAreRegistered(db, Otp.SetOtp(store, email, otp, now))
    ensures PendingAreRegistered(db, VerifyOtp(db, store, email, otp, now).store)
  {
  }

  /** Logging in end to end: a code requested with valid credentials and
      entered within two minutes yields the user's id, and only once. */
  lemma LoginRoundTrip(db: Db, store: Otp.Store, email: string, password: string, code: string,
                       requested: int, entered: int)
    requires ValidCredentials(db, email, password)
    requires requested <= entered <= requested + Otp.DefaultExpiryMinutes * Otp.MicrosPerMinute
    ensures var first := VerifyOtp(db, Otp.SetOtp(store, email, code, requested), email, code, entered);
            && first.result == Success(email)
            && VerifyOtp(db, first.store, email, code, entered).result == Failure(HttpError(401, "OTP not found"))
  {
  }
}

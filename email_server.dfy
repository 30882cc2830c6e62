/**
 * The line-oriented session of the e-mail server: one client handler reads
 * commands from its connection, answers on the same connection, and keeps
 * the user's mailbox in a map shared by every session of the server. The
 * connection is a LineReader over the lines the client sends and an
 * output sequence of the lines the server prints; the system clock and the
 * two date formats are parameters.
 */
module EmailServer {
  import opened JavaLang
  import opened Decimal
  import opened Emails
  import opened Folders
  import opened Mailboxes

  const WELCOME := "Welcome to the Email Server. Please log in with: LOGIN <username>"
  const LOGGED_IN := "Logged in as "
  const COMMANDS := "Commands: COMPOSE, INBOX, VIEW <index>, QUIT"
  const INVALID_LOGIN := "Invalid login command. Usage: LOGIN <username>"
  const LOGIN_FIRST := "Please log in first with: LOGIN <username>"
  const GOODBYE := "Goodbye!"
  const UNKNOWN := "Unknown command. Available commands: COMPOSE, INBOX, VIEW <index>, QUIT"
  const INBOX_EMPTY := "Inbox is empty."
  const VIEW_USAGE := "Usage: VIEW <index>"
  const INVALID_INDEX := "Invalid email index."
  const INVALID_FORMAT := "Invalid index format."
  const COMPOSING := "Composing a new email."
  const ENTER_TO := "Enter recipient (TO):"
  const ENTER_CC := "Enter CC (optional):"
  const ENTER_BCC := "Enter BCC (optional):"
  const ENTER_SUBJECT := "Enter subject:"
  const ENTER_BODY := "Enter body:"
  const COMPOSED := "Email composed and added to Inbox."
  /** Everything COMPOSE prints, in order. */
  const COMPOSE_DIALOGUE := [COMPOSING, ENTER_TO, ENTER_CC, ENTER_BCC, ENTER_SUBJECT, ENTER_BODY, COMPOSED]

  /** The prompts printed one by one between the reads are the dialogue, in order. */
  lemma DialogueOrder(out0: seq<string>)
    ensures out0 + [COMPOSING] + [ENTER_TO] + [ENTER_CC] + [ENTER_BCC] + [ENTER_SUBJECT] + [ENTER_BODY] + [COMPOSED]
      == out0 + COMPOSE_DIALOGUE
  {
  }

  // ---------------------------------------------------------------------------
  // What INBOX and VIEW print
  // ---------------------------------------------------------------------------

  /** The numbered lines listInbox prints from position k on. */
  function ListingFrom(emails: seq<Email>, k: nat, formatTime: int -> string): seq<string>
    decreases |emails| - k
  {
    if k >= |emails| then []
    else [IntToString(k + 1) + ": " + Summary(emails[k], formatTime)] + ListingFrom(emails, k + 1, formatTime)
  }

  /** The reply to INBOX. */
  function Listing(emails: seq<Email>, formatTime: int -> string): seq<string>
  {
    if emails == [] then [INBOX_EMPTY] else ListingFrom(emails, 0, formatTime)
  }

  lemma {:induction false} ListingFromLines(emails: seq<Email>, k: nat, formatTime: int -> string)
    ensures var lines := ListingFrom(emails, k, formatTime);
      |lines| == if k >= |emails| then 0 else |emails| - k
    ensures forall i :: k <= i < |emails| ==>
      ListingFrom(emails, k, formatTime)[i - k] == IntToString(i + 1) + ": " + Summary(emails[i], formatTime)
    decreases |emails| - k
  {
    if k < |emails| {
      ListingFromLines(emails, k + 1, formatTime);
      var head := IntToString(k + 1) + ": " + Summary(emails[k], formatTime);
      var rest := ListingFrom(emails, k + 1, formatTime);
      assert ListingFrom(emails, k, formatTime) == [head] + rest;
      forall i | k < i < |emails|
        ensures ListingFrom(emails, k, formatTime)[i - k] == IntToString(i + 1) + ": " + Summary(emails[i], formatTime)
      {
        assert ([head] + rest)[i - k] == rest[i - (k + 1)];
      }
    }
  }

  /** INBOX prints one line per email, numbered from 1 in folder order. */
  lemma ListingLines(emails: seq<Email>, formatTime: int -> string)
    requires emails != []
    ensures var lines := Listing(emails, formatTime);
      |lines| == |emails| &&
      forall i :: 0 <= i < |emails| ==> lines[i] == IntToString(i + 1) + ": " + Summary(emails[i], formatTime)
  {
    ListingFromLines(emails, 0, formatTime);
    var lines := ListingFrom(emails, 0, formatTime);
    forall i | 0 <= i < |emails|
      ensures lines[i] == IntToString(i + 1) + ": " + Summary(emails[i], formatTime)
    {
      assert lines[i] == lines[i - 0];
    }
  }

  /** The six lines viewEmail prints for one email. */
  function Details(e: Email, formatDate: int -> string): seq<string>
  {
    ["To: " + Show(e.to), "CC: " + Show(e.cc), "BCC: " + Show(e.bcc),
     "Subject: " + Show(e.subject), "Body: " + Show(e.body), "Timestamp: " + formatDate(e.timestamp)]
  }

  /** The reply to a VIEW command line (trimmed and non-empty, as the session passes it). */
  function ViewReply(command: string, emails: seq<Email>, formatDate: int -> string): (r: seq<string>)
    requires command != [] && !IsTrimmable(command[0])
    ensures |r| == 1 || |r| == 6
  {
    var tokens := SplitWhitespace(command);
    if |tokens| < 2 then [VIEW_USAGE]
    else
      match ParseInt(tokens[1])
      case None => [INVALID_FORMAT]
      case Some(n) =>
        var index := n - 1;
        if index < 0 || index >= |emails| then [INVALID_INDEX] else Details(emails[index], formatDate)
  }

  /** "VIEW n" splits into the command word and the number, and the number parses back. */
  lemma ViewCommandOf(n: int)
    requires InInt32(n)
    ensures var command := "VIEW " + IntToString(n);
      command != [] && !IsTrimmable(command[0]) &&
      SplitWhitespace(command) == ["VIEW", IntToString(n)] && ParseInt(IntToString(n)) == Some(n)
  {
    var d := IntToString(n);
    IntToStringIsWord(n);
    assert IsWord("VIEW");
    SplitTwoWords("VIEW", d);
    assert "VIEW " + d == "VIEW" + " " + d;
    ParseIntToString(n);
  }

  /** The number INBOX prints in front of an email is what VIEW takes to show that email. */
  lemma ListedNumberViews(emails: seq<Email>, i: int, formatDate: int -> string)
    requires 0 <= i < |emails| && i + 1 <= INT_MAX
    ensures ViewReply("VIEW " + IntToString(i + 1), emails, formatDate) == Details(emails[i], formatDate)
  {
    ViewCommandOf(i + 1);
  }

  /** VIEW with a number outside 1..|emails| never shows an email. */
  lemma ViewOutOfRange(emails: seq<Email>, n: int, formatDate: int -> string)
    requires InInt32(n) && !(1 <= n <= |emails|)
    ensures ViewReply("VIEW " + IntToString(n), emails, formatDate) == [INVALID_INDEX]
  {
    ViewCommandOf(n);
  }

  // ---------------------------------------------------------------------------
  // Commands of a logged-in user
  // ---------------------------------------------------------------------------

  datatype Command = Quit | ListInboxCmd | ViewCmd | ComposeCmd | UnknownCmd

  /** The if-chain of the session loop for a logged-in user, in its order. */
  function CommandOf(line: string): (c: Command)
    ensures c == Quit <==> EqualsIgnoreCase(line, "QUIT")
    ensures c == ComposeCmd ==> EqualsIgnoreCase(line, "COMPOSE")
  {
    if EqualsIgnoreCase(line, "QUIT") then Quit
    else if EqualsIgnoreCase(line, "INBOX") then ListInboxCmd
    else if StartsWith(ToUpper(line), "VIEW") then ViewCmd
    else if EqualsIgnoreCase(line, "COMPOSE") then ComposeCmd
    else UnknownCmd
  }

  /**
   * A LOGIN line is never a command of a logged-in user: a second LOGIN gets
   * the unknown-command reply, and, read the other way, QUIT, INBOX, VIEW and
   * COMPOSE sent before logging in all get the please-log-in reply.
   */
  lemma {:induction false} LoginIsNoCommand(line: string)
    requires StartsWith(ToUpper(line), "LOGIN")
    ensures CommandOf(line) == UnknownCmd
  {
    var u := ToUpper(line);
    StartsWithPrefix(u, "LOGIN");
    assert u[0] == 'L';
    EqualsIgnoreCaseUpper(line, "QUIT");
    EqualsIgnoreCaseUpper(line, "INBOX");
    ToUpperAt("INBOX", 0);
    EqualsIgnoreCaseUpper(line, "COMPOSE");
    ToUpperAt("COMPOSE", 0);
    StartsWithPrefix(u, "VIEW");
  }

  // ---------------------------------------------------------------------------
  // The shared map from user names to mailboxes
  // ---------------------------------------------------------------------------

  class MailboxStore {
    var mailboxes: map<string, Mailbox>
    ghost var Repr: set<object>

    /**
     * Every mailbox is valid, and no session of the server changes an
     * inbox's sorting method, so no inbox sorts by subject. Repr holds the
     * map object, the mailboxes and their inboxes.
     */
    ghost predicate Valid()
      reads this, Repr
    {
      && this in Repr
      && (forall u :: u in mailboxes ==>
            && mailboxes[u] in Repr && mailboxes[u].inbox in Repr
            && mailboxes[u].Valid() && !BySubject(mailboxes[u].inbox.sortingMethod))
    }

    constructor ()
      ensures Valid() && fresh(Repr) && mailboxes == map[]
    {
      mailboxes := map[];
      Repr := {this};
    }

    /** mailboxes.computeIfAbsent(username, k -> new Mailbox()). */
    method GetOrCreate(username: string) returns (m: Mailbox)
      requires Valid()
      modifies this
      ensures Valid() && fresh(Repr - old(Repr))
      ensures username in mailboxes && mailboxes[username] == m
      ensures username in old(mailboxes) ==> mailboxes == old(mailboxes) && Repr == old(Repr)
      ensures username !in old(mailboxes) ==>
        mailboxes == old(mailboxes)[username := m] && fresh(m) && m.Empty()
    {
      if username in mailboxes {
        return mailboxes[username];
      }
      m := new Mailbox();
      mailboxes := mailboxes[username := m];
      Repr := Repr + {m, m.inbox};
    }

    /** Adding to one inbox in place, keeping its sorting method, leaves the map valid. */
    twostate lemma InboxUpdated(inbox: Folder)
      requires old(Valid()) && unchanged(this)
      requires forall o :: o in Repr && o != inbox ==> unchanged(o)
      requires inbox.sortingMethod == old(inbox.sortingMethod)
      ensures Valid()
    {
      forall u | u in mailboxes
        ensures mailboxes[u].Valid() && !BySubject(mailboxes[u].inbox.sortingMethod)
      {
        assert old(mailboxes[u].Valid());
      }
    }
  }

  /** The client's side of the connection: the lines it sends, and how many were read. */
  class LineReader {
    const lines: seq<string>
    var pos: nat

    ghost predicate Valid()
      reads this
    {
      pos <= |lines|
    }

    constructor (lines: seq<string>)
      ensures this.lines == lines && pos == 0 && Valid()
    {
      this.lines := lines;
      pos := 0;
    }

    /** What readLine returns when k lines have been read: the next line, or null at end of stream. */
    function LineAt(k: nat): JString
    {
      if k < |lines| then Str(lines[k]) else Null
    }

    method ReadLine() returns (line: JString)
      requires Valid()
      modifies this
      ensures Valid()
      ensures line == LineAt(old(pos))
      ensures pos == if old(pos) < |lines| then old(pos) + 1 else old(pos)
    {
      if pos < |lines| {
        line := Str(lines[pos]);
        pos := pos + 1;
      } else {
        line := Null;
      }
    }
  }

  function Min(a: int, b: int): int { if a <= b then a else b }

  // ---------------------------------------------------------------------------
  // ClientHandler
  // ---------------------------------------------------------------------------

  class ClientHandler {
    const store: MailboxStore
    const input: LineReader
    var output: seq<string>
    var username: Option<string>
    var mailbox: Mailbox?
    /** The instant a new GregorianCalendar reads once k lines have been read. */
    const clock: nat -> int
    /** SimpleDateFormat("hh:mm a MM/dd/yyyy"), used by Email.toString. */
    const formatTime: int -> string
    /** Date.toString, used by VIEW. */
    const formatDate: int -> string

    ghost predicate Valid()
      reads this, input, store, store.Repr
    {
      && store.Valid() && input.Valid()
      && this !in store.Repr && input !in store.Repr
      && (username.None? <==> mailbox == null)
      && (username.Some? ==> username.value in store.mailboxes && store.mailboxes[username.value] == mailbox)
    }

    constructor (store: MailboxStore, lines: seq<string>, clock: nat -> int,
                 formatTime: int -> string, formatDate: int -> string)
      requires store.Valid()
      ensures Valid()
      ensures this.store == store && fresh(input) && input.lines == lines && input.pos == 0
      ensures output == [] && username == None && mailbox == null
      ensures this.clock == clock && this.formatTime == formatTime && this.formatDate == formatDate
    {
      this.store := store;
      input := new LineReader(lines);
      output := [];
      username := None;
      mailbox := null;
      this.clock := clock;
      this.formatTime := formatTime;
      this.formatDate := formatDate;
    }

    /** run(): the welcome line, then one pass of the loop at a time until QUIT or end of stream. */
    method Run()
      requires Valid()
      modifies this, input, store, store.Repr
      ensures Valid()
      ensures old(output) + [WELCOME] <= output
      ensures old(username).Some? ==> username == old(username)
      ensures input.pos == |input.lines| || (username.Some? && output[|output| - 1] == GOODBYE)
      ensures old(mailbox) != null ==> mailbox == old(mailbox)
      ensures forall u :: u in old(store.mailboxes) ==> u in store.mailboxes && store.mailboxes[u] == old(store.mailboxes[u])
      ensures forall o :: o in old(store.Repr) && o != store && (mailbox == null || o != mailbox.inbox) ==> unchanged(o)
    {
      output := output + [WELCOME];
      var stop := false;
      while !stop
        invariant Valid()
        invariant fresh(store.Repr - old(store.Repr))
        invariant old(mailbox) != null ==> mailbox == old(mailbox)
        invariant forall u :: u in old(store.mailboxes) ==> u in store.mailboxes && store.mailboxes[u] == old(store.mailboxes[u])
        invariant forall o :: o in old(store.Repr) && o != store && (mailbox == null || o != mailbox.inbox) ==> unchanged(o)
        invariant old(output) + [WELCOME] <= output
        invariant old(username).Some? ==> username == old(username)
        invariant stop ==> input.pos == |input.lines| || (username.Some? && output[|output| - 1] == GOODBYE)
        decreases |input.lines| - input.pos, !stop
      {
        stop := Step();
      }
    }

    /**
     * One pass of the session loop: read a line; stop at end of stream;
     * skip it when it is blank after trimming; otherwise hand it to the
     * login or command branch. stop is true when the loop ends.
     */
    method Step() returns (stop: bool)
      requires Valid()
      modifies this, input, store, if mailbox != null then {mailbox.inbox} else {}
      ensures Valid() && fresh(store.Repr - old(store.Repr))
      ensures old(mailbox) != null ==> mailbox == old(mailbox)
      ensures forall u :: u in old(store.mailboxes) ==> u in store.mailboxes && store.mailboxes[u] == old(store.mailboxes[u])
      ensures old(username).Some? ==> username == old(username)
      ensures old(output) <= output
      ensures input.pos >= old(input.pos) && (!stop ==> input.pos > old(input.pos))
      ensures stop ==> input.pos == |input.lines| || (username.Some? && |output| > 0 && output[|output| - 1] == GOODBYE)
      ensures old(input.pos) == |input.lines| ==>
        stop && input.pos == old(input.pos) && unchanged(this) && store.mailboxes == old(store.mailboxes)
      ensures old(input.pos) < |input.lines| && Trim(input.lines[old(input.pos)]) == [] ==>
        !stop && input.pos == old(input.pos) + 1 && unchanged(this) && store.mailboxes == old(store.mailboxes)
      ensures old(input.pos) < |input.lines| && Trim(input.lines[old(input.pos)]) != [] ==>
        var line := Trim(input.lines[old(input.pos)]);
        && (old(username).None? ==>
              !stop && LoginReply(line, old(input.pos) + 1, old(output), old(store.mailboxes)))
        && (old(username).Some? ==>
              && username == old(username) && mailbox == old(mailbox) && store.mailboxes == old(store.mailboxes)
              && (stop <==> CommandOf(line) == Quit)
              && CommandReply(line, old(input.pos) + 1, old(mailbox.inbox.emails), old(output)))
    {
      var raw := input.ReadLine();
      if raw.Null? {
        return true;
      }
      var line := Trim(raw.chars);
      if line == [] {
        return false;
      }
      stop := Handle(line);
    }

    /** A non-blank line goes to the login branch before login and to the command branch after it. */
    method Handle(line: string) returns (stop: bool)
      requires Valid() && line != [] && !IsTrimmable(line[0])
      modifies this, input, store, if mailbox != null then {mailbox.inbox} else {}
      ensures Valid() && fresh(store.Repr - old(store.Repr))
      ensures old(username).Some? ==> username == old(username)
      ensures old(output) <= output
      ensures input.pos >= old(input.pos)
      ensures stop ==> username.Some? && |output| > 0 && output[|output| - 1] == GOODBYE
      ensures forall u :: u in old(store.mailboxes) ==> u in store.mailboxes && store.mailboxes[u] == old(store.mailboxes[u])
      ensures old(username).None? ==>
        !stop && LoginReply(line, old(input.pos), old(output), old(store.mailboxes))
      ensures old(username).Some? ==>
        && username == old(username) && mailbox == old(mailbox) && store.mailboxes == old(store.mailboxes)
        && (stop <==> CommandOf(line) == Quit)
        && CommandReply(line, old(input.pos), old(mailbox.inbox.emails), old(output))
    {
      if username.None? {
        LogIn(line);
        stop := false;
      } else {
        stop := Dispatch(line);
      }
    }

    /**
     * What a line before login leaves behind, from the position pos0 in the
     * input, the output output0 and the mailbox map mailboxes0: a line not
     * starting with LOGIN (in any case) gets the please-log-in reply, a LOGIN
     * without a name the invalid-login reply, and LOGIN <name> logs in as
     * name, finding its mailbox or creating an empty one, and prints the
     * greeting and the command list. Nothing is read.
     */
    ghost predicate LoginReply(line: string, pos0: nat, output0: seq<string>, mailboxes0: map<string, Mailbox>)
      requires line != [] && !IsTrimmable(line[0])
      reads this, input, store, mailbox, if mailbox != null then {mailbox.inbox, mailbox.trash} else {}
    {
      && input.pos == pos0
      && if !StartsWith(ToUpper(line), "LOGIN") then
           username == None && store.mailboxes == mailboxes0 && output == output0 + [LOGIN_FIRST]
         else if |SplitWhitespace(line)| < 2 then
           username == None && store.mailboxes == mailboxes0 && output == output0 + [INVALID_LOGIN]
         else
           var name := SplitWhitespace(line)[1];
           && username == Some(name) && mailbox != null
           && output == output0 + [LOGGED_IN + name, COMMANDS]
           && if name in mailboxes0 then store.mailboxes == mailboxes0 && mailbox == mailboxes0[name]
              else store.mailboxes == mailboxes0[name := mailbox] && mailbox.Empty()
    }

    /** A line before login: LOGIN <name> logs in (creating the mailbox if absent); any other line is refused. */
    method LogIn(line: string)
      requires Valid() && username.None? && line != [] && !IsTrimmable(line[0])
      modifies this, store
      ensures Valid() && fresh(store.Repr - old(store.Repr))
      ensures LoginReply(line, old(input.pos), old(output), old(store.mailboxes))
      ensures username.Some? && username.value !in old(store.mailboxes) ==> fresh(mailbox)
    {
      if StartsWith(ToUpper(line), "LOGIN") {
        var tokens := SplitWhitespace(line);
        if |tokens| >= 2 {
          Enter(tokens[1]);
        } else {
          output := output + [INVALID_LOGIN];
        }
      } else {
        output := output + [LOGIN_FIRST];
      }
    }

    /** The successful LOGIN: the user's mailbox is looked up, or created empty, in the shared map. */
    method Enter(name: string)
      requires Valid() && username.None?
      modifies this, store
      ensures Valid() && fresh(store.Repr - old(store.Repr))
      ensures input.pos == old(input.pos)
      ensures username == Some(name) && output == old(output) + [LOGGED_IN + name, COMMANDS]
      ensures name in old(store.mailboxes) ==>
        store.mailboxes == old(store.mailboxes) && mailbox == old(store.mailboxes)[name]
      ensures name !in old(store.mailboxes) ==>
        store.mailboxes == old(store.mailboxes)[name := mailbox] && fresh(mailbox) && mailbox.Empty()
    {
      var m := store.GetOrCreate(name);
      username, mailbox, output := Some(name), m, output + [LOGGED_IN + name, COMMANDS];
    }

    /**
     * What a line after login leaves behind, from the position pos0 in the
     * input, the inbox emails0 and the output output0: QUIT prints goodbye,
     * INBOX the numbered listing, VIEW... the reply to the view command,
     * COMPOSE runs the dialogue, and anything else gets the unknown-command
     * reply; only COMPOSE reads lines or changes the inbox.
     */
    ghost predicate CommandReply(line: string, pos0: nat, emails0: seq<Email>, output0: seq<string>)
      requires line != [] && !IsTrimmable(line[0])
      reads this, input, mailbox, if mailbox != null then {mailbox.inbox} else {}
    {
      && mailbox != null
      && if CommandOf(line) == ComposeCmd then Composed(pos0, emails0, output0)
         else
           && input.pos == pos0
           && mailbox.inbox.emails == emails0
           && output == output0 + match CommandOf(line)
                case Quit => [GOODBYE]
                case ListInboxCmd => Listing(emails0, formatTime)
                case ViewCmd => ViewReply(line, emails0, formatDate)
                case _ => [UNKNOWN]
    }

    /** A line after login: QUIT, INBOX, VIEW..., COMPOSE or anything else; quit is true exactly on QUIT. */
    method Dispatch(line: string) returns (quit: bool)
      requires Valid() && username.Some? && line != [] && !IsTrimmable(line[0])
      modifies this, input, mailbox.inbox
      ensures Valid()
      ensures username == old(username) && mailbox == old(mailbox)
      ensures quit <==> CommandOf(line) == Quit
      ensures CommandReply(line, old(input.pos), old(mailbox.inbox.emails), old(output))
    {
      InboxFound();
      quit := false;
      if EqualsIgnoreCase(line, "QUIT") {
        output := output + [GOODBYE];
        quit := true;
      } else if EqualsIgnoreCase(line, "INBOX") {
        ListInbox();
      } else if StartsWith(ToUpper(line), "VIEW") {
        ViewEmail(line);
      } else if EqualsIgnoreCase(line, "COMPOSE") {
        ComposeEmail();
        store.InboxUpdated(mailbox.inbox);
      } else {
        output := output + [UNKNOWN];
      }
    }

    /** The user's inbox, which getFolder("Inbox") always finds; it never sorts by subject. */
    lemma InboxFound()
      requires Valid() && mailbox != null
      ensures mailbox.GetFolder("Inbox") == mailbox.inbox
      ensures !BySubject(mailbox.inbox.sortingMethod)
    {
      assert store.mailboxes[username.value] == mailbox;
      mailbox.PermanentFolders();
    }

    method ListInbox()
      requires mailbox != null && mailbox.GetFolder("Inbox") == mailbox.inbox
      modifies this
      ensures username == old(username) && mailbox == old(mailbox)
      ensures output == old(output) + Listing(mailbox.inbox.emails, formatTime)
    {
      var inbox := mailbox.GetFolder("Inbox");
      if inbox == null || |inbox.emails| == 0 {
        output := output + [INBOX_EMPTY];
        return;
      }
      var emails := inbox.emails;
      var i := 0;
      while i < |emails|
        invariant 0 <= i <= |emails|
        invariant username == old(username) && mailbox == old(mailbox)
        invariant output + ListingFrom(emails, i, formatTime) == old(output) + ListingFrom(emails, 0, formatTime)
      {
        var next := IntToString(i + 1) + ": " + Summary(emails[i], formatTime);
        ghost var rest := ListingFrom(emails, i + 1, formatTime);
        assert ListingFrom(emails, i, formatTime) == [next] + rest;
        assert (output + [next]) + rest == output + ([next] + rest);
        output := output + [next];
        i := i + 1;
      }
    }

    method ViewEmail(command: string)
      requires mailbox != null && mailbox.GetFolder("Inbox") == mailbox.inbox
      requires command != [] && !IsTrimmable(command[0])
      modifies this
      ensures username == old(username) && mailbox == old(mailbox)
      ensures output == old(output) + ViewReply(command, mailbox.inbox.emails, formatDate)
    {
      var tokens := SplitWhitespace(command);
      if |tokens| < 2 {
        output := output + [VIEW_USAGE];
        return;
      }
      var parsed := ParseInt(tokens[1]);
      if parsed.None? {
        output := output + [INVALID_FORMAT];
        return;
      }
      var index := parsed.value - 1;
      var inbox := mailbox.GetFolder("Inbox");
      if inbox == null || index < 0 || index >= |inbox.emails| {
        output := output + [INVALID_INDEX];
      } else {
        output := output + Details(inbox.emails[index], formatDate);
      }
    }

    /**
     * What COMPOSE leaves behind: the next five lines (null past the end of
     * the stream) became to, cc, bcc, subject and body of an email stamped
     * with the clock, the inbox re-sorted with it, and the dialogue printed.
     */
    ghost predicate Composed(pos0: nat, emails0: seq<Email>, output0: seq<string>)
      reads this, input, mailbox, if mailbox != null then {mailbox.inbox} else {}
    {
      && mailbox != null
      && input.pos == Min(pos0 + 5, |input.lines|)
      && mailbox.inbox.emails == Arrange(mailbox.inbox.sortingMethod, emails0 + [
           Email(input.LineAt(pos0), input.LineAt(pos0 + 1), input.LineAt(pos0 + 2),
                 input.LineAt(pos0 + 3), input.LineAt(pos0 + 4), clock(input.pos))])
      && output == output0 + COMPOSE_DIALOGUE
    }

    /** One prompt of the COMPOSE dialogue: print msg, then read the answer (null at end of stream). */
    method Prompt(msg: string) returns (answer: JString)
      requires input.Valid()
      modifies this, input
      ensures username == old(username) && mailbox == old(mailbox)
      ensures input.Valid() && output == old(output) + [msg]
      ensures answer == input.LineAt(old(input.pos)) && input.pos == Min(old(input.pos) + 1, |input.lines|)
    {
      output := output + [msg];
      answer := input.ReadLine();
    }

    method ComposeEmail()
      requires mailbox != null && mailbox.GetFolder("Inbox") == mailbox.inbox
      requires input.Valid() && !BySubject(mailbox.inbox.sortingMethod)
      modifies this, input, mailbox.inbox
      ensures username == old(username) && mailbox == old(mailbox)
      ensures input.Valid() && mailbox.inbox.Valid()
      ensures mailbox.inbox.sortingMethod == old(mailbox.inbox.sortingMethod)
      ensures Composed(old(input.pos), old(mailbox.inbox.emails), old(output))
    {
      ghost var p0, n, out0 := input.pos, |input.lines|, output;
      output := output + [COMPOSING];
      var to := Prompt(ENTER_TO);
      var cc := Prompt(ENTER_CC);
      var bcc := Prompt(ENTER_BCC);
      var subject := Prompt(ENTER_SUBJECT);
      var body := Prompt(ENTER_BODY);
      var email := Email(to, cc, bcc, subject, body, clock(input.pos));
      var inbox := mailbox.GetFolder("Inbox");
      inbox.AddEmail(email);
      output := output + [COMPOSED];
      DialogueOrder(out0);
      assert input.pos == Min(old(input.pos) + 5, |input.lines|);
      assert email == Email(input.LineAt(p0), input.LineAt(p0 + 1), input.LineAt(p0 + 2),
                 input.LineAt(p0 + 3), input.LineAt(p0 + 4), clock(input.pos));
      assert mailbox.inbox.emails == Arrange(mailbox.inbox.sortingMethod, old(mailbox.inbox.emails) + [email]);
    }
  }
}

/** The user database: a text file with one line per user, scanned line by line by sign-up, login and
    the email check. */
module ProfileDatabase {
  import opened Wrappers
  import opened Text

  /** A line of the database. */
  datatype Account = Account(email: string, name: string, hash: string)

  datatype UserProfile = UserProfile(userId: int, username: string, email: string, loginStatus: bool)

  /** The answer of login; std::stoi throws on a line whose id is not a number. */
  datatype LoginResult = Success(profile: UserProfile) | Refused(profile: UserProfile) | Threw

  /** The lines that std::getline delivers. */
  function Lines(text: string): (lines: seq<string>)
    ensures forall i :: 0 <= i < |lines| ==> '\n' !in lines[i]
    decreases |text|
  {
    var end := Find(text, '\n', 0);
    if text == "" then []
    else if end == |text| then [text]
    else [text[..end]] + Lines(text[end + 1..])
  }

  /** std::stoi: leading white space, a sign, then digits; None where it throws for want of a digit. */
  function Stoi(s: string): Option<int> {
    var t := SkipSpace(s);
    var signed := t != "" && (t[0] == '-' || t[0] == '+');
    var digits := LeadingDigits(if signed then t[1..] else t);
    if digits == "" then None
    else if signed && t[0] == '-' then Some(-(Value(digits) as int))
    else Some(Value(digits))
  }

  function SkipSpace(s: string): string {
    if s != "" && (s[0] == ' ' || 9 <= s[0] as int <= 13) then SkipSpace(s[1..]) else s
  }

  function LeadingDigits(s: string): (d: string)
    ensures AllDigits(d)
  {
    if s == "" || !IsDigit(s[0]) then "" else [s[0]] + LeadingDigits(s[1..])
  }

  // ----- what one line says

  /** The text before the first '|', and the text after it when there is one. */
  datatype Cut = Cut(head: string, tail: Option<string>)

  function CutBar(s: string): Cut {
    if s == "" then Cut("", None)
    else if s[0] == '|' then Cut("", Some(s[1..]))
    else var rest := CutBar(s[1..]); Cut([s[0]] + rest.head, rest.tail)
  }

  /** Cutting what follows a position is looking for the next '|' from that position on. */
  lemma {:induction false} CutFrom(line: string, from: nat)
    requires from <= |line|
    ensures
      var end := Find(line, '|', from);
      CutBar(line[from..]) == Cut(line[from..end], if end == |line| then None else Some(line[end + 1..]))
    decreases |line| - from
  {
    if from < |line| {
      assert line[from..][1..] == line[from + 1..];
      if line[from] != '|' {
        CutFrom(line, from + 1);
        var end := Find(line, '|', from);
        assert [line[from]] + line[from + 1..end] == line[from..end];
      }
    }
  }

  /** The email that sign-up and the email check read from a line with a '|'. */
  function EmailField(line: string): Option<string> {
    match CutBar(line).tail
    case None => None
    case Some(rest) => Some(CutBar(rest).head)
  }

  lemma EmailFieldAt(line: string)
    ensures
      var idEnd := Find(line, '|', 0);
      EmailField(line) == if idEnd == |line| then None else Some(line[idEnd + 1..Find(line, '|', idEnd + 1)])
  {
    var idEnd := Find(line, '|', 0);
    assert line[0..] == line;
    CutFrom(line, 0);
    if idEnd < |line| {
      CutFrom(line, idEnd + 1);
    }
  }

  datatype Row = Row(id: string, email: string, name: string, hash: string)

  function First64(s: string): string {
    if |s| <= 64 then s else s[..64]
  }

  /** The fields that login reads from a line with two '|'. Without a third one the password is taken
      from the start of the line. */
  function LoginRow(line: string): Option<Row> {
    var id := CutBar(line);
    if id.tail == None then None
    else
      var email := CutBar(id.tail.value);
      if email.tail == None then None else Some(MakeRow(line, id.head, email.head, CutBar(email.tail.value)))
  }

  function MakeRow(line: string, id: string, email: string, name: Cut): Row {
    Row(id, email, name.head, First64(if name.tail == None then line else name.tail.value))
  }

  // ----- what the whole file says

  predicate EmailKnown(lines: seq<string>, email: string) {
    exists i :: 0 <= i < |lines| && EmailField(lines[i]) == Some(email)
  }

  /** The lines that count as users. */
  function CountUsers(lines: seq<string>): nat {
    if lines == [] then 0
    else CountUsers(lines[..|lines| - 1]) + if EmailField(lines[|lines| - 1]).Some? then 1 else 0
  }

  lemma CountNext(lines: seq<string>, i: nat)
    requires i < |lines|
    ensures CountUsers(lines[..i + 1]) == CountUsers(lines[..i]) + if EmailField(lines[i]).Some? then 1 else 0
  {
    assert lines[..i + 1][..i] == lines[..i];
  }

  function AccountLine(id: nat, a: Account): string {
    Numeral(id) + ("|" + (a.email + ("|" + (a.name + ("|" + a.hash)))))
  }

  function SignupText(db: Option<string>, a: Account): (Option<string>, bool) {
    match db
    case None => (Some(AccountLine(1, a) + "\n"), true)
    case Some(text) =>
      if EmailKnown(Lines(text), a.email) then (db, false)
      else (Some(text + (AccountLine(CountUsers(Lines(text)) + 1, a) + "\n")), true)
  }

  function Profile(row: Row): LoginResult {
    match Stoi(row.id)
    case None => Threw
    case Some(id) => Success(UserProfile(id, row.name, row.email, true))
  }

  function LoginLines(lines: seq<string>, email: string, hash: string): LoginResult {
    if lines == [] then Refused(UserProfile(-1, "Email address not present within database", "", false))
    else
      match LoginRow(lines[0])
      case None => LoginLines(lines[1..], email, hash)
      case Some(row) =>
        if row.email != email then LoginLines(lines[1..], email, hash)
        else if row.hash == hash then Profile(row)
        else Refused(UserProfile(-1, "", "", false))
  }

  function LoginText(db: Option<string>, email: string, hash: string): LoginResult {
    match db
    case None => Refused(UserProfile(-1, "Database file does not exist", "", false))
    case Some(text) => LoginLines(Lines(text), email, hash)
  }

  /** The quoted cookie value, or nothing when the data is malformed or the login fails. */
  function CookieText(db: Option<string>, data: string, hash: string -> string): Option<string> {
    var info := Fields(data);
    if |info| != 3 || info[0] != "crazyCode" then Some("")
    else
      match LoginText(db, info[1], hash(info[2]))
      case Threw => None
      case Refused(_) => Some("")
      case Success(p) => Some("\"" + (Numeral(p.userId) + ("|" + (p.username + ("|" + p.email)))) + "\"")
  }

  class ProfileManager {
    var database: Option<string>
    const hashPass: string -> string

    constructor (hashPass: string -> string)
      ensures this.hashPass == hashPass && database == None
    {
      this.hashPass := hashPass;
      database := None;
    }

    /** The email of a line, as the scans of sign-up and of the email check find it. */
    method ReadEmail(line: string) returns (email: Option<string>)
      ensures email == EmailField(line)
    {
      EmailFieldAt(line);
      var idEnd := Find(line, '|', 0);
      if idEnd == |line| {
        return None;
      }
      var emailEnd := Find(line, '|', idEnd + 1);
      email := Some(line[idEnd + 1..emailEnd]);
    }

    method EmailExists(email: string) returns (known: bool)
      ensures known <==> database.Some? && EmailKnown(Lines(database.value), email)
    {
      known := false;
      if database.Some? {
        var lines := Lines(database.value);
        for i := 0 to |lines|
          invariant forall j :: 0 <= j < i ==> EmailField(lines[j]) != Some(email)
        {
          var stored := ReadEmail(lines[i]);
          if stored == Some(email) {
            return true;
          }
        }
      }
    }

    /** The scan of sign-up: whether a line has the email already, else how many lines are users. */
    method ScanUsers(lines: seq<string>, email: string) returns (known: bool, users: nat)
      ensures known <==> EmailKnown(lines, email)
      ensures !known ==> users == CountUsers(lines)
    {
      known, users := false, 0;
      for i := 0 to |lines|
        invariant users == CountUsers(lines[..i])
        invariant forall j :: 0 <= j < i ==> EmailField(lines[j]) != Some(email)
      {
        CountNext(lines, i);
        var stored := ReadEmail(lines[i]);
        if stored.Some? {
          users := users + 1;
          if stored.value == email {
            return true, users;
          }
        }
      }
      assert lines[..|lines|] == lines;
    }

    /** Appends a line for a new email; a known email is refused. */
    method Signup(email: string, name: string, password: string) returns (ok: bool)
      modifies this
      ensures (database, ok) == SignupText(old(database), Account(email, name, hashPass(password)))
    {
      var account := Account(email, name, hashPass(password));
      if database.Some? {
        var known, users := ScanUsers(Lines(database.value), email);
        if known {
          return false;
        }
        database := Some(database.value + (AccountLine(users + 1, account) + "\n"));
      } else {
        database := Some(AccountLine(1, account) + "\n");
      }
      ok := true;
    }

    /** name|password|email, as the sign-up page sends it. */
    method SignupString(data: string) returns (ok: bool)
      modifies this
      ensures
        var info := Fields(data);
        (database, ok) ==
        if |info| != 3 then (old(database), false)
        else SignupText(old(database), Account(info[2], info[0], hashPass(info[1])))
    {
      var info := SplitBars(data);
      if |info| != 3 {
        return false;
      }
      ok := Signup(info[2], info[0], info[1]);
    }

    /** One field of a line: the next '|' from a position on, and what it cuts off. */
    method NextField(line: string, from: nat) returns (end: nat, field: Cut)
      requires from <= |line|
      ensures from <= end <= |line| && field == CutBar(line[from..])
      ensures field.tail == if end == |line| then None else Some(line[end + 1..])
    {
      end := Find(line, '|', from);
      CutFrom(line, from);
      field := Cut(line[from..end], if end == |line| then None else Some(line[end + 1..]));
    }

    /** How login takes one line apart. */
    method ReadRow(line: string) returns (row: Option<Row>)
      ensures row == LoginRow(line)
    {
      var idEnd, id := NextField(line, 0);
      assert line[0..] == line;
      if id.tail == None {
        return None;
      }
      var emailEnd, email := NextField(line, idEnd + 1);
      if email.tail == None {
        return None;
      }
      var nameEnd, name := NextField(line, emailEnd + 1);
      row := Some(MakeRow(line, id.head, email.head, name));
    }

    method Login(email: string, password: string) returns (result: LoginResult)
      ensures result == LoginText(database, email, hashPass(password))
    {
      if database == None {
        return Refused(UserProfile(-1, "Database file does not exist", "", false));
      }
      var lines, hash := Lines(database.value), hashPass(password);
      for i := 0 to |lines|
        invariant LoginLines(lines, email, hash) == LoginLines(lines[i..], email, hash)
      {
        assert lines[i..][1..] == lines[i + 1..];
        var row := ReadRow(lines[i]);
        if row.Some? && row.value.email == email {
          if hash == row.value.hash {
            var id := Stoi(row.value.id);
            if id == None {
              return Threw;
            }
            return Success(UserProfile(id.value, row.value.name, row.value.email, true));
          }
          return Refused(UserProfile(-1, "", "", false));
        }
      }
      assert lines[|lines|..] == [];
      result := Refused(UserProfile(-1, "Email address not present within database", "", false));
    }

    /** The cookie for crazyCode|email|password; None when login throws. */
    method UpdateCookie(cookie: string) returns (updated: Option<string>)
      ensures updated == CookieText(database, cookie, hashPass)
    {
      var info := SplitBars(cookie);
      if |info| != 3 {
        return Some("");
      }
      updated := Some("");
      if info[0] == "crazyCode" {
        var found := Login(info[1], info[2]);
        match found
        case Threw => updated := None;
        case Refused(_) =>
        case Success(p) =>
          updated := Some("\"" + (Numeral(p.userId) + ("|" + (p.username + ("|" + p.email)))) + "\"");
      }
    }
  }
}

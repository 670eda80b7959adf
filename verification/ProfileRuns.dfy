/** What the database holds after any sequence of sign-ups, who can log in, and the cookie round trip. */
module ProfileRuns {
  import opened Wrappers
  import opened Text
  import opened ProfileDatabase

  predicate NoBar(s: string) {
    '|' !in s
  }

  predicate NoNewline(s: string) {
    '\n' !in s
  }

  /** The hash as sign-up relies on it: 64 characters, neither '|' nor newline. */
  predicate IsHash(h: string) {
    |h| == 64 && NoBar(h) && NoNewline(h)
  }

  ghost predicate HashesWell(hash: string -> string) {
    forall p :: IsHash(hash(p))
  }

  predicate Clean(a: Account) {
    NoBar(a.email) && NoBar(a.name) && NoNewline(a.email) && NoNewline(a.name) && IsHash(a.hash)
  }

  predicate AllClean(accounts: seq<Account>) {
    forall i :: 0 <= i < |accounts| ==> Clean(accounts[i])
  }

  predicate DistinctEmails(accounts: seq<Account>) {
    forall i, j :: 0 <= i < j < |accounts| ==> accounts[i].email != accounts[j].email
  }

  predicate Consistent(accounts: seq<Account>) {
    AllClean(accounts) && DistinctEmails(accounts)
  }

  /** The file that holds the accounts: line k is k|email|name|hash. */
  function FileText(accounts: seq<Account>): string {
    if accounts == [] then ""
    else FileText(accounts[..|accounts| - 1]) + (AccountLine(|accounts|, accounts[|accounts| - 1]) + "\n")
  }

  function Represent(accounts: seq<Account>): Option<string> {
    if accounts == [] then None else Some(FileText(accounts))
  }

  function AccountLines(accounts: seq<Account>): (lines: seq<string>)
    ensures |lines| == |accounts| && forall i :: 0 <= i < |lines| ==> lines[i] == AccountLine(i + 1, accounts[i])
  {
    seq(|accounts|, i requires 0 <= i < |accounts| => AccountLine(i + 1, accounts[i]))
  }

  lemma AccountLinesSnoc(accounts: seq<Account>, a: Account)
    ensures AccountLines(accounts + [a]) == AccountLines(accounts) + [AccountLine(|accounts| + 1, a)]
  {
  }

  // ----- lines of the file

  predicate EndsLine(text: string) {
    text == "" || text[|text| - 1] == '\n'
  }

  lemma FirstLine(first: string, rest: string)
    requires NoNewline(first)
    ensures Lines(first + ("\n" + rest)) == [first] + Lines(rest)
  {
    var text := first + ("\n" + rest);
    FindIs(text, '\n', 0, |first|);
    assert text[..|first|] == first && text[|first| + 1..] == rest;
  }

  lemma {:induction false} LinesAppend(text: string, more: string)
    requires EndsLine(text)
    ensures Lines(text + more) == Lines(text) + Lines(more)
    decreases |text|
  {
    if text == "" {
      assert text + more == more;
    } else {
      var end := Find(text, '\n', 0);
      var first, rest := text[..end], text[end + 1..];
      assert text == first + ("\n" + rest);
      Assoc(first, "\n" + rest, more);
      Assoc("\n", rest, more);
      LinesAppend(rest, more);
      FirstLine(first, rest);
      FirstLine(first, rest + more);
      Assoc([first], Lines(rest), Lines(more));
    }
  }

  lemma LinesOfLine(line: string)
    requires NoNewline(line)
    ensures Lines(line + "\n") == [line]
  {
    FindIs(line + "\n", '\n', 0, |line|);
    assert (line + "\n")[..|line|] == line && (line + "\n")[|line| + 1..] == "";
  }

  lemma AccountLinePlain(id: nat, a: Account)
    requires Clean(a)
    ensures NoNewline(AccountLine(id, a))
  {
    NumeralIsPlain(id);
  }

  lemma LinesOfSignup(text: string, id: nat, a: Account)
    requires EndsLine(text) && Clean(a)
    ensures
      var longer := text + (AccountLine(id, a) + "\n");
      EndsLine(longer) && Lines(longer) == Lines(text) + [AccountLine(id, a)]
  {
    AccountLinePlain(id, a);
    LinesAppend(text, AccountLine(id, a) + "\n");
    LinesOfLine(AccountLine(id, a));
  }

  lemma FileTextSnoc(accounts: seq<Account>, a: Account)
    ensures FileText(accounts + [a]) == FileText(accounts) + (AccountLine(|accounts| + 1, a) + "\n")
  {
    var more := accounts + [a];
    assert more[..|more| - 1] == accounts && more[|more| - 1] == a;
  }

  lemma {:induction false} LinesOfFile(accounts: seq<Account>)
    requires AllClean(accounts)
    ensures EndsLine(FileText(accounts)) && Lines(FileText(accounts)) == AccountLines(accounts)
    decreases |accounts|
  {
    if accounts != [] {
      var front, last := accounts[..|accounts| - 1], accounts[|accounts| - 1];
      assert accounts == front + [last];
      LinesOfFile(front);
      FileTextSnoc(front, last);
      LinesOfSignup(FileText(front), |front| + 1, last);
      AccountLinesSnoc(front, last);
    }
  }

  // ----- fields of a line

  lemma {:induction false} CutField(field: string, rest: string)
    requires NoBar(field)
    ensures CutBar(field + ("|" + rest)) == Cut(field, Some(rest))
  {
    if field == "" {
      assert field + ("|" + rest) == "|" + rest;
      assert ("|" + rest)[1..] == rest;
    } else {
      assert field[0] in field;
      CutField(field[1..], rest);
      assert (field + ("|" + rest))[1..] == field[1..] + ("|" + rest);
      assert [field[0]] + field[1..] == field;
    }
  }

  lemma {:induction false} CutLast(field: string)
    requires NoBar(field)
    ensures CutBar(field) == Cut(field, None)
  {
    if field != "" {
      assert field[0] in field;
      CutLast(field[1..]);
      assert [field[0]] + field[1..] == field;
    }
  }

  lemma {:induction false} CutKeepsLine(s: string)
    requires NoNewline(s)
    ensures NoNewline(CutBar(s).head) && (CutBar(s).tail.Some? ==> NoNewline(CutBar(s).tail.value))
  {
    if s != "" {
      CutKeepsLine(s[1..]);
    }
  }

  lemma NumeralHasNoBar(id: nat)
    ensures NoBar(Numeral(id)) && NoNewline(Numeral(id))
  {
    NumeralIsPlain(id);
  }

  lemma EmailOfLine(id: nat, a: Account)
    requires NoBar(a.email)
    ensures EmailField(AccountLine(id, a)) == Some(a.email)
  {
    NumeralHasNoBar(id);
    CutField(Numeral(id), a.email + ("|" + (a.name + ("|" + a.hash))));
    CutField(a.email, a.name + ("|" + a.hash));
  }

  lemma RowOfLine(id: nat, a: Account)
    requires NoBar(a.email) && NoBar(a.name) && IsHash(a.hash)
    ensures LoginRow(AccountLine(id, a)) == Some(Row(Numeral(id), a.email, a.name, a.hash))
  {
    NumeralHasNoBar(id);
    CutField(Numeral(id), a.email + ("|" + (a.name + ("|" + a.hash))));
    CutField(a.email, a.name + ("|" + a.hash));
    CutField(a.name, a.hash);
  }

  lemma {:induction false} LeadingDigitsOf(s: string)
    requires AllDigits(s)
    ensures LeadingDigits(s) == s
  {
    if s != "" {
      LeadingDigitsOf(s[1..]);
    }
  }

  lemma StoiOfNumeral(n: nat)
    ensures Stoi(Numeral(n)) == Some(n)
  {
    LeadingDigitsOf(Digits(n));
    ValueOfDigits(n);
  }

  // ----- sign-up on a consistent database

  lemma KnownEmails(accounts: seq<Account>, email: string)
    requires AllClean(accounts)
    ensures EmailKnown(AccountLines(accounts), email) <==>
            exists i :: 0 <= i < |accounts| && accounts[i].email == email
  {
    var lines := AccountLines(accounts);
    forall i | 0 <= i < |accounts| ensures EmailField(lines[i]) == Some(accounts[i].email) {
      assert Clean(accounts[i]);
      EmailOfLine(i + 1, accounts[i]);
    }
    if i :| 0 <= i < |accounts| && accounts[i].email == email {
      assert EmailField(lines[i]) == Some(email);
    }
  }

  lemma {:induction false} CountAccounts(accounts: seq<Account>)
    requires AllClean(accounts)
    ensures CountUsers(AccountLines(accounts)) == |accounts|
    decreases |accounts|
  {
    if accounts != [] {
      var front, last := accounts[..|accounts| - 1], accounts[|accounts| - 1];
      CountAccounts(front);
      AccountLinesSnoc(front, last);
      assert front + [last] == accounts;
      var lines := AccountLines(accounts);
      assert lines[..|lines| - 1] == AccountLines(front);
      EmailOfLine(|accounts|, last);
    }
  }

  predicate HasEmail(accounts: seq<Account>, email: string) {
    exists i :: 0 <= i < |accounts| && accounts[i].email == email
  }

  lemma ConsistentSnoc(accounts: seq<Account>, a: Account)
    requires Consistent(accounts) && Clean(a) && !HasEmail(accounts, a.email)
    ensures Consistent(accounts + [a])
  {
  }

  /** On a consistent file sign-up refuses exactly the stored emails and else adds the next line. */
  lemma SignupOnAccounts(accounts: seq<Account>, a: Account)
    requires Consistent(accounts) && Clean(a)
    ensures SignupText(Represent(accounts), a) ==
            if HasEmail(accounts, a.email) then (Represent(accounts), false)
            else (Represent(accounts + [a]), true)
    ensures !HasEmail(accounts, a.email) ==> Consistent(accounts + [a])
  {
    FileTextSnoc(accounts, a);
    if !HasEmail(accounts, a.email) {
      ConsistentSnoc(accounts, a);
    }
    if accounts == [] {
      assert "" + (AccountLine(1, a) + "\n") == AccountLine(1, a) + "\n";
    } else {
      LinesOfFile(accounts);
      KnownEmails(accounts, a.email);
      CountAccounts(accounts);
    }
  }

  // ----- any sequence of sign-up requests

  /** The file after the requests, oldest first. */
  function Database(calls: seq<string>, hash: string -> string): Option<string> {
    if calls == [] then None
    else
      var db, info := Database(calls[..|calls| - 1], hash), Fields(calls[|calls| - 1]);
      if |info| != 3 then db else SignupText(db, Account(info[2], info[0], hash(info[1]))).0
  }

  /** The accounts that should exist after them: a well-formed request with a new email adds one. */
  function AddAccount(accounts: seq<Account>, data: string, hash: string -> string): (r: seq<Account>)
    ensures |accounts| <= |r| && r[..|accounts|] == accounts
  {
    var info := Fields(data);
    if |info| != 3 || HasEmail(accounts, info[2]) then accounts
    else accounts + [Account(info[2], info[0], hash(info[1]))]
  }

  function Accounts(calls: seq<string>, hash: string -> string): seq<Account> {
    if calls == [] then []
    else AddAccount(Accounts(calls[..|calls| - 1], hash), calls[|calls| - 1], hash)
  }

  /** Names and emails are free of newlines; passwords may hold anything but '|'. */
  predicate PlainCall(data: string) {
    var info := Fields(data);
    |info| == 3 ==> NoNewline(info[0]) && NoNewline(info[2])
  }

  lemma FieldsHaveNoBar(data: string)
    ensures forall i :: 0 <= i < |Fields(data)| ==> NoBar(Fields(data)[i])
  {
    FieldsIs(data, Fields(data));
  }

  /** After any sign-up requests the file holds the accounts that were accepted, line k being
      k|email|name|hash, with pairwise different emails. */
  lemma {:induction false} DatabaseInvariant(calls: seq<string>, hash: string -> string)
    requires HashesWell(hash) && forall i :: 0 <= i < |calls| ==> PlainCall(calls[i])
    ensures Consistent(Accounts(calls, hash))
    ensures Database(calls, hash) == Represent(Accounts(calls, hash))
    decreases |calls|
  {
    if calls != [] {
      var front, last := calls[..|calls| - 1], calls[|calls| - 1];
      DatabaseInvariant(front, hash);
      var info := Fields(last);
      if |info| == 3 {
        assert PlainCall(last);
        FieldsHaveNoBar(last);
        var a := Account(info[2], info[0], hash(info[1]));
        assert Clean(a);
        SignupOnAccounts(Accounts(front, hash), a);
      }
    }
  }

  // ----- who can log in

  lemma LoginSkips(line: string, rest: seq<string>, email: string, hash: string)
    requires LoginRow(line).Some? ==> LoginRow(line).value.email != email
    ensures LoginLines([line] + rest, email, hash) == LoginLines(rest, email, hash)
  {
    assert ([line] + rest)[1..] == rest;
  }

  lemma {:induction false} LoginSkipsAll(lines: seq<string>, rest: seq<string>, email: string, hash: string)
    requires forall i :: 0 <= i < |lines| && LoginRow(lines[i]).Some? ==> LoginRow(lines[i]).value.email != email
    ensures LoginLines(lines + rest, email, hash) == LoginLines(rest, email, hash)
    decreases |lines|
  {
    if lines == [] {
      assert lines + rest == rest;
    } else {
      LoginSkipsAll(lines[1..], rest, email, hash);
      LoginSkips(lines[0], lines[1..] + rest, email, hash);
      assert lines == [lines[0]] + lines[1..];
      Assoc([lines[0]], lines[1..], rest);
    }
  }

  lemma LoginFrom(accounts: seq<Account>, k: nat, more: seq<string>, email: string, hash: string)
    requires AllClean(accounts) && k <= |accounts|
    requires forall i :: 0 <= i < k ==> accounts[i].email != email
    ensures LoginLines(AccountLines(accounts) + more, email, hash) ==
            LoginLines(AccountLines(accounts)[k..] + more, email, hash)
  {
    var lines := AccountLines(accounts);
    forall i | 0 <= i < k ensures LoginRow(lines[..k][i]).Some? && LoginRow(lines[..k][i]).value.email != email {
      assert Clean(accounts[i]);
      RowOfLine(i + 1, accounts[i]);
    }
    LoginSkipsAll(lines[..k], lines[k..] + more, email, hash);
    assert lines == lines[..k] + lines[k..];
    Assoc(lines[..k], lines[k..], more);
  }

  /** Login of a stored email succeeds exactly for the stored hash, with the data of its line. */
  lemma LoginStored(accounts: seq<Account>, k: nat, hash: string)
    requires Consistent(accounts) && k < |accounts|
    ensures
      var a := accounts[k];
      LoginText(Represent(accounts), a.email, hash) ==
      if a.hash == hash then Success(UserProfile(k + 1, a.name, a.email, true))
      else Refused(UserProfile(-1, "", "", false))
  {
    var a, lines := accounts[k], AccountLines(accounts);
    assert Clean(a);
    LinesOfFile(accounts);
    LoginFrom(accounts, k, [], a.email, hash);
    assert lines + [] == lines && lines[k..] + [] == lines[k..];
    RowOfLine(k + 1, a);
    StoiOfNumeral(k + 1);
  }

  /** Login of any other email is refused, and leaves a profile that is not logged in and says why. */
  lemma LoginUnknown(accounts: seq<Account>, email: string, hash: string)
    requires Consistent(accounts) && !HasEmail(accounts, email)
    ensures LoginText(Represent(accounts), email, hash) ==
            Refused(UserProfile(-1, if accounts == [] then "Database file does not exist"
                                    else "Email address not present within database", "", false))
  {
    if accounts != [] {
      LinesOfFile(accounts);
      LoginFrom(accounts, |accounts|, [], email, hash);
      var lines := AccountLines(accounts);
      assert lines + [] == lines && lines[|accounts|..] + [] == [];
    }
  }

  // ----- names and emails with a newline

  lemma {:induction false} NewlineNeverMatches(lines: seq<string>, email: string, hash: string)
    requires (forall i :: 0 <= i < |lines| ==> NoNewline(lines[i])) && !NoNewline(email)
    ensures LoginLines(lines, email, hash).Refused?
    decreases |lines|
  {
    if lines != [] {
      var line := lines[0];
      CutKeepsLine(line);
      if CutBar(line).tail.Some? {
        CutKeepsLine(CutBar(line).tail.value);
      }
      NewlineNeverMatches(lines[1..], email, hash);
    }
  }

  lemma NewlineInName(id: nat, a: Account)
    requires |Numeral(id)| < 64 && NoBar(a.email) && NoBar(a.name) && IsHash(a.hash)
    requires NoNewline(a.email) && !NoNewline(a.name)
    ensures LoginLines(Lines(AccountLine(id, a) + "\n"), a.email, a.hash).Refused?
  {
    var first, rest := BreakLine(id, a);
    FirstLine(first, rest);
    assert LoginRow(first).value.hash != a.hash;
  }

  /** A line without its third '|': login takes the password from the start of the line. */
  lemma RowWithoutHash(n: string, email: string, start: string)
    requires NoBar(n) && NoBar(email) && NoBar(start) && |n| < 64
    ensures
      var row := LoginRow(n + ("|" + (email + ("|" + start))));
      row.Some? && row.value.email == email && '|' in row.value.hash
  {
    var line := n + ("|" + (email + ("|" + start)));
    CutField(n, email + ("|" + start));
    CutField(email, start);
    CutLast(start);
    assert First64(line)[|n|] == '|';
  }

  /** A newline in the name cuts the line inside the name. */
  lemma BreakLine(id: nat, a: Account) returns (first: string, rest: string)
    requires |Numeral(id)| < 64 && NoBar(a.email) && NoBar(a.name)
    requires NoNewline(a.email) && !NoNewline(a.name)
    ensures AccountLine(id, a) + "\n" == first + ("\n" + rest) && NoNewline(first)
    ensures
      var row := LoginRow(first);
      row.Some? && row.value.email == a.email && '|' in row.value.hash
  {
    var n, end := Numeral(id), Find(a.name, '\n', 0);
    var start, tail := a.name[..end], a.name[end + 1..];
    NumeralHasNoBar(id);
    first, rest := n + ("|" + (a.email + ("|" + start))), tail + ("|" + (a.hash + "\n"));
    assert a.name == start + ("\n" + tail);
    BrokenText(n, a.email, start, tail, a.hash);
    PlainLine(n, a.email, start);
    RowWithoutHash(n, a.email, start);
  }

  lemma PlainLine(n: string, email: string, start: string)
    requires NoNewline(n) && NoNewline(email) && NoNewline(start)
    ensures NoNewline(n + ("|" + (email + ("|" + start))))
  {
  }

  lemma BrokenText(n: string, email: string, start: string, tail: string, hash: string)
    ensures n + ("|" + (email + ("|" + (start + ("\n" + tail) + ("|" + hash))))) + "\n" ==
            n + ("|" + (email + ("|" + start))) + ("\n" + (tail + ("|" + (hash + "\n"))))
  {
  }

  lemma ShortNumeral(id: nat)
    requires id <= 0x7fff_ffff
    ensures |Numeral(id)| <= 10
  {
    assert Power(2) == 100;
    assert Power(4) == 10000;
    assert Power(6) == 1000000;
    assert Power(8) == 100000000;
    assert Power(10) == 10000000000;
    DigitsLength(id, 10);
  }

  /** Someone who has just signed up can log in with the same password exactly when neither the email nor
      the name contains a newline. */
  lemma LoginAfterSignup(accounts: seq<Account>, a: Account)
    requires Consistent(accounts) && |accounts| < 0x7fff_ffff
    requires NoBar(a.email) && NoBar(a.name) && IsHash(a.hash) && !HasEmail(accounts, a.email)
    ensures
      var (db, ok) := SignupText(Represent(accounts), a);
      ok && (LoginText(db, a.email, a.hash).Success? <==> NoNewline(a.email) && NoNewline(a.name))
  {
    if Clean(a) {
      SignupOnAccounts(accounts, a);
      LoginStored(accounts + [a], |accounts|, a.hash);
    } else {
      var more := Lines(AccountLine(|accounts| + 1, a) + "\n");
      RawSignup(accounts, a);
      LoginFrom(accounts, |accounts|, more, a.email, a.hash);
      assert AccountLines(accounts)[|accounts|..] + more == more;
      if NoNewline(a.email) {
        ShortNumeral(|accounts| + 1);
        NewlineInName(|accounts| + 1, a);
      } else {
        NewlineNeverMatches(more, a.email, a.hash);
      }
    }
  }

  /** What sign-up writes for an account that need not be clean. */
  lemma RawSignup(accounts: seq<Account>, a: Account)
    requires Consistent(accounts) && !HasEmail(accounts, a.email)
    ensures
      var (db, ok) := SignupText(Represent(accounts), a);
      ok && db.Some? &&
      Lines(db.value) == AccountLines(accounts) + Lines(AccountLine(|accounts| + 1, a) + "\n")
  {
    if accounts != [] {
      LinesOfFile(accounts);
      KnownEmails(accounts, a.email);
      CountAccounts(accounts);
      LinesAppend(FileText(accounts), AccountLine(|accounts| + 1, a) + "\n");
    }
  }

  // ----- the session cookie

  /** The value of a quoted cookie parameter: a backslash gives its successor, the next quote ends it. */
  function Unquote(s: string): Option<string> {
    if s == "" || s[0] != '"' then None else UnquoteRest(s[1..])
  }

  function UnquoteRest(s: string): Option<string> {
    if s == "" then None
    else if s[0] == '"' then (if |s| == 1 then Some("") else None)
    else if s[0] == '\\' && |s| == 1 then None
    else
      var c, rest := if s[0] == '\\' then s[1] else s[0], if s[0] == '\\' then s[2..] else s[1..];
      match UnquoteRest(rest)
      case None => None
      case Some(tail) => Some([c] + tail)
  }

  /** The profile that a cookie value gives, when it has three fields and starts with a number. */
  function UserOf(data: string): Option<UserProfile> {
    var info := Fields(data);
    if |info| != 3 || Stoi(info[0]) == None then None
    else Some(UserProfile(Stoi(info[0]).value, info[1], info[2], true))
  }

  predicate Unquotable(s: string) {
    '"' !in s && '\\' !in s
  }

  lemma {:induction false} UnquoteText(s: string)
    requires Unquotable(s)
    ensures UnquoteRest(s + "\"") == Some(s)
  {
    if s != "" {
      assert s[0] in s;
      assert (s + "\"")[1..] == s[1..] + "\"";
      UnquoteText(s[1..]);
      assert [s[0]] + s[1..] == s;
    }
  }

  lemma ThreeFields(a: string, b: string, c: string)
    requires NoBar(a) && NoBar(b) && NoBar(c)
    ensures Fields(a + ("|" + (b + ("|" + c)))) == if c == "" then [a, b] else [a, b, c]
  {
    SplitFirst(a, '|', b + ("|" + c));
    SplitFirst(b, '|', c);
    SplitSingle(c, '|');
    assert a + ("|" + (b + ("|" + c))) == a + ['|'] + (b + ("|" + c));
    assert b + ("|" + c) == b + ['|'] + c;
    assert Split(a + ("|" + (b + ("|" + c))), '|') == [a, b, c];
    assert [a, b, c][..2] == [a, b];
  }

  /** What a cookie request with the right password yields for account k. */
  lemma CookieOfAccount(accounts: seq<Account>, k: nat, password: string, hash: string -> string)
    requires Consistent(accounts) && k < |accounts| && NoBar(password) && hash(password) == accounts[k].hash
    ensures
      var a := accounts[k];
      CookieText(Represent(accounts), "crazyCode" + ("|" + (a.email + ("|" + password))), hash) ==
      if password == "" then Some("")
      else Some("\"" + (Numeral(k + 1) + ("|" + (a.name + ("|" + a.email)))) + "\"")
  {
    var a := accounts[k];
    assert Clean(a);
    ThreeFields("crazyCode", a.email, password);
    LoginStored(accounts, k, a.hash);
  }

  lemma UserOfCookie(id: nat, a: Account)
    requires Clean(a)
    ensures UserOf(Numeral(id) + ("|" + (a.name + ("|" + a.email)))) ==
            if a.email == "" then None else Some(UserProfile(id, a.name, a.email, true))
  {
    NumeralHasNoBar(id);
    ThreeFields(Numeral(id), a.name, a.email);
    StoiOfNumeral(id);
  }

  lemma QuotedCookie(id: nat, name: string, email: string)
    requires Unquotable(name) && Unquotable(email)
    ensures
      var data := Numeral(id) + ("|" + (name + ("|" + email)));
      Unquote("\"" + data + "\"") == Some(data)
  {
    var data := Numeral(id) + ("|" + (name + ("|" + email)));
    NumeralIsPlain(id);
    UnquoteText(data);
    Assoc("\"", data, "\"");
    assert ("\"" + (data + "\""))[1..] == data + "\"";
  }

  // A quote or a backslash does not survive the unquoting.

  lemma {:induction false} UnquoteShrinks(s: string)
    ensures
      var r := UnquoteRest(s + "\"");
      r.Some? ==> |r.value| <= |s| && (!Unquotable(s) ==> |r.value| < |s|)
    decreases |s|
  {
    var full := s + "\"";
    if s != "" && s[0] != '"' {
      if s[0] != '\\' {
        assert full[1..] == s[1..] + "\"";
        UnquoteShrinks(s[1..]);
        assert Unquotable(s[1..]) ==> Unquotable(s);
      } else if |s| == 1 {
        assert full[2..] == "";
      } else {
        assert full[2..] == s[2..] + "\"";
        UnquoteShrinks(s[2..]);
      }
    }
  }

  lemma {:induction false} UnquotePrefix(a: string, s: string)
    requires Unquotable(a)
    ensures UnquoteRest(a + s) == match UnquoteRest(s) case None => None case Some(t) => Some(a + t)
    decreases |a|
  {
    if a == "" {
      assert a + s == s;
      if UnquoteRest(s).Some? {
        assert a + UnquoteRest(s).value == UnquoteRest(s).value;
      }
    } else {
      assert a[0] in a;
      assert (a + s)[1..] == a[1..] + s;
      UnquotePrefix(a[1..], s);
      if UnquoteRest(s).Some? {
        Assoc([a[0]], a[1..], UnquoteRest(s).value);
        assert [a[0]] + a[1..] == a;
      }
    }
  }

  function TotalLength(fields: seq<string>): nat {
    if fields == [] then 0 else |fields[0]| + TotalLength(fields[1..])
  }

  lemma {:induction false} SplitLength(s: string, from: nat)
    requires from <= |s|
    ensures |s| - from == TotalLength(SplitFrom(s, '|', from)) + |SplitFrom(s, '|', from)| - 1
    decreases |s| - from
  {
    var end, fields := Find(s, '|', from), SplitFrom(s, '|', from);
    if end == |s| {
      assert fields[1..] == [];
    } else {
      SplitLength(s, end + 1);
      assert fields[1..] == SplitFrom(s, '|', end + 1);
    }
  }

  /** A profile read from a text with this id takes at least the characters of its name and email. */
  lemma UserNeedsText(id: string, text: string, p: UserProfile)
    requires NoBar(id) && UserOf(id + ("|" + text)) == Some(p)
    ensures |text| >= |p.username| + |p.email| + 1
  {
    var all, rest := Split(id + ("|" + text), '|'), Split(text, '|');
    SplitFirst(id, '|', text);
    Assoc(id, "|", text);
    assert all == [id] + rest;
    assert all[1] == p.username && all[2] == p.email;
    assert rest[0] == p.username && rest[1] == p.email;
    SplitLength(text, 0);
    assert TotalLength(rest) == |rest[0]| + (|rest[1]| + TotalLength(rest[1..][1..]));
  }

  /** Unquoting the cookie and reading it gives the profile. */
  predicate ReadsBack(cookie: string, p: UserProfile) {
    Unquote(cookie).Some? && UserOf(Unquote(cookie).value) == Some(p)
  }

  lemma QuotesAreLost(id: nat, name: string, email: string)
    requires !Unquotable(name) || !Unquotable(email)
    ensures !ReadsBack("\"" + (Numeral(id) + ("|" + (name + ("|" + email)))) + "\"",
                       UserProfile(id, name, email, true))
  {
    var prefix, s := Numeral(id) + "|", name + ("|" + email);
    var cookie := "\"" + (Numeral(id) + ("|" + s)) + "\"";
    NumeralIsPlain(id);
    NumeralHasNoBar(id);
    CookieTail(Numeral(id), s);
    UnquotePrefix(prefix, s + "\"");
    UnquoteShrinks(s);
    NotUnquotable(name, email);
    if ReadsBack(cookie, UserProfile(id, name, email, true)) {
      var t := UnquoteRest(s + "\"").value;
      Assoc(Numeral(id), "|", t);
      UserNeedsText(Numeral(id), t, UserProfile(id, name, email, true));
    }
  }

  lemma CookieTail(id: string, s: string)
    ensures
      var cookie := "\"" + (id + ("|" + s)) + "\"";
      cookie[0] == '"' && cookie[1..] == id + "|" + (s + "\"")
  {
  }

  lemma NotUnquotable(name: string, email: string)
    requires !Unquotable(name) || !Unquotable(email)
    ensures !Unquotable(name + ("|" + email))
  {
    var s := name + ("|" + email);
    if i :| 0 <= i < |name| && (name[i] == '"' || name[i] == '\\') {
      assert s[i] == name[i];
    } else {
      var i :| 0 <= i < |email| && (email[i] == '"' || email[i] == '\\');
      assert s[|name| + 1 + i] == email[i];
    }
  }

  lemma CookieReadsBack(id: nat, a: Account)
    requires Clean(a)
    ensures ReadsBack("\"" + (Numeral(id) + ("|" + (a.name + ("|" + a.email)))) + "\"",
                      UserProfile(id, a.name, a.email, true)) <==>
            a.email != "" && Unquotable(a.name) && Unquotable(a.email)
  {
    if Unquotable(a.name) && Unquotable(a.email) {
      QuotedCookie(id, a.name, a.email);
      UserOfCookie(id, a);
    } else {
      QuotesAreLost(id, a.name, a.email);
    }
  }

  /** The cookie is issued exactly when the password is not empty; it then reads back as this id, name and email,
      logged in, exactly when the email is not empty and neither name nor email holds a quote or a backslash. */
  predicate Carries(cookie: Option<string>, password: string, id: nat, name: string, email: string) {
    && cookie.Some? && (cookie.value != "" <==> password != "")
    && (ReadsBack(cookie.value, UserProfile(id, name, email, true)) <==>
          password != "" && email != "" && Unquotable(name) && Unquotable(email))
  }

  /** The cookie given for the right password carries the id, name and email of the account. */
  lemma CookieRoundTrip(accounts: seq<Account>, k: nat, password: string, hash: string -> string)
    requires Consistent(accounts) && k < |accounts| && NoBar(password) && hash(password) == accounts[k].hash
    ensures
      var a := accounts[k];
      var cookie := CookieText(Represent(accounts), "crazyCode" + ("|" + (a.email + ("|" + password))), hash);
      Carries(cookie, password, k + 1, a.name, a.email)
  {
    assert Clean(accounts[k]);
    CookieOfAccount(accounts, k, password, hash);
    CookieReadsBack(k + 1, accounts[k]);
  }

  /** The request names the email of account k and a password with its hash. */
  predicate Authorises(accounts: seq<Account>, data: string, hash: string -> string, k: nat) {
    var info := Fields(data);
    && |info| == 3 && info[0] == "crazyCode"
    && k < |accounts| && accounts[k].email == info[1] && accounts[k].hash == hash(info[2])
  }

  /** For every request text: a cookie is issued if and only if the request authorises an account, and then it is the
      quoted id, name and email of that account; otherwise it is empty. */
  lemma CookieIssued(accounts: seq<Account>, data: string, hash: string -> string)
    requires Consistent(accounts)
    ensures
      var cookie := CookieText(Represent(accounts), data, hash);
      && cookie.Some?
      && (cookie.value != "" <==> exists k: nat :: Authorises(accounts, data, hash, k))
      && (forall k: nat :: Authorises(accounts, data, hash, k) ==>
            cookie.value == "\"" + (Numeral(k + 1) + ("|" + (accounts[k].name + ("|" + accounts[k].email)))) + "\"")
  {
    var info := Fields(data);
    if |info| == 3 {
      forall k: nat | k < |accounts| && accounts[k].email == info[1]
        ensures
          LoginText(Represent(accounts), info[1], hash(info[2])) ==
          if accounts[k].hash == hash(info[2]) then Success(UserProfile(k + 1, accounts[k].name, info[1], true))
          else Refused(UserProfile(-1, "", "", false))
      {
        LoginStored(accounts, k, hash(info[2]));
      }
      if !HasEmail(accounts, info[1]) {
        LoginUnknown(accounts, info[1], hash(info[2]));
      } else {
        var k: nat :| k < |accounts| && accounts[k].email == info[1];
        assert Authorises(accounts, data, hash, k) <==> info[0] == "crazyCode" && accounts[k].hash == hash(info[2]);
      }
    }
  }

  lemma AccountsStep(calls: seq<string>, data: string, hash: string -> string)
    ensures Accounts(calls + [data], hash) == AddAccount(Accounts(calls, hash), data, hash)
  {
    assert (calls + [data])[..|calls|] == calls;
  }

  lemma AccountStaysOnce(calls: seq<string>, data: string, hash: string -> string, k: nat)
    requires k < |Accounts(calls, hash)|
    ensures k < |Accounts(calls + [data], hash)| && Accounts(calls + [data], hash)[k] == Accounts(calls, hash)[k]
  {
    AccountsStep(calls, data, hash);
    var before, after := Accounts(calls, hash), Accounts(calls + [data], hash);
    assert after[..|before|][k] == after[k];
  }

  /** Later requests leave account k alone. */
  lemma {:induction false} AccountStays(calls: seq<string>, later: seq<string>, hash: string -> string, k: nat)
    requires k < |Accounts(calls, hash)|
    ensures k < |Accounts(calls + later, hash)| && Accounts(calls + later, hash)[k] == Accounts(calls, hash)[k]
    decreases |later|
  {
    if later == [] {
      assert calls + later == calls;
    } else {
      AccountStaysOnce(calls, later[0], hash, k);
      AccountStays(calls + [later[0]], later[1..], hash, k);
      assert later == [later[0]] + later[1..];
      Assoc(calls, [later[0]], later[1..]);
    }
  }

  lemma SignedUpAccount(calls: seq<string>, data: string, later: seq<string>, hash: string -> string)
    requires |Fields(data)| == 3 && !HasEmail(Accounts(calls, hash), Fields(data)[2])
    ensures
      var info, k, all := Fields(data), |Accounts(calls, hash)|, Accounts(calls + [data] + later, hash);
      k < |all| && all[k] == Account(info[2], info[0], hash(info[1]))
  {
    var before := Accounts(calls, hash);
    AccountsStep(calls, data, hash);
    assert AddAccount(before, data, hash)[|before|] == Account(Fields(data)[2], Fields(data)[0], hash(Fields(data)[1]));
    AccountStays(calls + [data], later, hash, |before|);
  }

  /** A user who signed up at any point of a run of sign-ups is given, at any later point, a cookie that carries
      the id given at sign-up, the name and the email. */
  lemma SignedUpUserKeepsCookie(calls: seq<string>, data: string, later: seq<string>, hash: string -> string)
    requires HashesWell(hash) && forall c :: c in calls + [data] + later ==> PlainCall(c)
    requires |Fields(data)| == 3 && !HasEmail(Accounts(calls, hash), Fields(data)[2])
    ensures
      var name, password, email := Fields(data)[0], Fields(data)[1], Fields(data)[2];
      var db := Database(calls + [data] + later, hash);
      var cookie := CookieText(db, "crazyCode" + ("|" + (email + ("|" + password))), hash);
      Carries(cookie, password, |Accounts(calls, hash)| + 1, name, email)
  {
    SignedUpAccount(calls, data, later, hash);
    FieldsHaveNoBar(data);
    CookieOfRun(calls + [data] + later, |Accounts(calls, hash)|, Fields(data)[1], hash);
  }

  lemma CookieOfRun(calls: seq<string>, k: nat, password: string, hash: string -> string)
    requires HashesWell(hash) && forall c :: c in calls ==> PlainCall(c)
    requires k < |Accounts(calls, hash)| && NoBar(password) && hash(password) == Accounts(calls, hash)[k].hash
    ensures
      var a := Accounts(calls, hash)[k];
      var cookie := CookieText(Database(calls, hash), "crazyCode" + ("|" + (a.email + ("|" + password))), hash);
      Carries(cookie, password, k + 1, a.name, a.email)
  {
    DatabaseInvariant(calls, hash);
    CookieRoundTrip(Accounts(calls, hash), k, password, hash);
  }

  // ----- requests that the sign-up page can send

  /** The request "a\nb|p|e" signs up a user who then cannot log in. */
  lemma NewlineLocksOut(hash: string -> string)
    requires HashesWell(hash)
    ensures
      var info := Fields("a\nb" + ("|" + ("p" + ("|" + "e"))));
      && info == ["a\nb", "p", "e"]
      && var (db, ok) := SignupText(None, Account(info[2], info[0], hash(info[1])));
         ok && !LoginText(db, "e", hash("p")).Success?
  {
    ThreeFields("a\nb", "p", "e");
    assert IsHash(hash("p"));
    assert "a\nb"[1] == '\n';
    LoginAfterSignup([], Account("e", "a\nb", hash("p")));
  }

  lemma TrailingBar(a: string, b: string, c: string)
    requires NoBar(a) && NoBar(b) && NoBar(c)
    ensures Fields(a + ['|'] + (b + ['|'] + (c + ['|']))) == [a, b, c]
  {
    SplitFirst(a, '|', b + ['|'] + (c + ['|']));
    SplitFirst(b, '|', c + ['|']);
    BarAtEnd(c);
    Assoc([a], [b], [c] + [""]);
    Assoc([a] + [b], [c], [""]);
    FieldsEnd(a + ['|'] + (b + ['|'] + (c + ['|'])), [a, b, c], "");
  }

  lemma BarAtEnd(c: string)
    requires NoBar(c)
    ensures Split(c + ['|'], '|') == [c] + [""]
  {
    SplitFirst(c, '|', "");
    SplitSingle("", '|');
    assert c + ['|'] + "" == c + ['|'];
  }

  /** The request that signs up an empty email: name|password|| */
  function EmptyEmailCall(name: string, password: string): string {
    name + ['|'] + (password + ['|'] + ("" + ['|']))
  }

  /** A request such as "n|p||" signs up an empty email; the cookie is issued and does not carry the user back. */
  lemma EmptyEmailIsLost(name: string, password: string, hash: string -> string)
    requires HashesWell(hash) && NoBar(name) && NoNewline(name) && NoBar(password) && password != ""
    ensures Fields(EmptyEmailCall(name, password)) == [name, password, ""]
    ensures
      var db := Database([EmptyEmailCall(name, password)], hash);
      var cookie := CookieText(db, "crazyCode" + ("|" + ("" + ("|" + password))), hash);
      cookie.Some? && cookie.value != "" && !ReadsBack(cookie.value, UserProfile(1, name, "", true))
  {
    TrailingBar(name, password, "");
    EmptyEmailCookie(EmptyEmailCall(name, password), name, password, hash);
  }

  lemma EmptyEmailCookie(data: string, name: string, password: string, hash: string -> string)
    requires HashesWell(hash) && NoNewline(name) && password != "" && Fields(data) == [name, password, ""]
    ensures
      var cookie := CookieText(Database([data], hash), "crazyCode" + ("|" + ("" + ("|" + password))), hash);
      cookie.Some? && cookie.value != "" && !ReadsBack(cookie.value, UserProfile(1, name, "", true))
  {
    assert [] + [data] + [] == [data];
    SignedUpUserKeepsCookie([], data, [], hash);
  }
}

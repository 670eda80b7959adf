/** What the scans of the user database read from any file whatever, told by lines and fields. */
module ProfileLines {
  import opened Wrappers
  import opened Text
  import opened ProfileDatabase
  import opened ProfileRuns

  // ----- the lines of a file

  function Terminated(lines: seq<string>): string {
    if lines == [] then "" else lines[0] + ("\n" + Terminated(lines[1..]))
  }

  lemma {:induction false} LinesOfTerminated(lines: seq<string>)
    requires forall i :: 0 <= i < |lines| ==> NoNewline(lines[i])
    ensures Lines(Terminated(lines)) == lines
    decreases |lines|
  {
    if lines != [] {
      FirstLine(lines[0], Terminated(lines[1..]));
      LinesOfTerminated(lines[1..]);
    }
  }

  lemma {:induction false} TerminatedLines(text: string)
    ensures Terminated(Lines(text)) == if EndsLine(text) then text else text + "\n"
    decreases |text|
  {
    var end := Find(text, '\n', 0);
    if text != "" {
      if end == |text| {
        assert [text][1..] == [];
        assert "\n" + "" == "\n";
      } else {
        var first, rest := text[..end], text[end + 1..];
        assert text == first + ("\n" + rest);
        FirstLine(first, rest);
        assert ([first] + Lines(rest))[1..] == Lines(rest);
        TerminatedLines(rest);
        assert EndsLine(text) <==> EndsLine(rest);
        Assoc(first, "\n" + rest, "\n");
        Assoc("\n", rest, "\n");
      }
    }
  }

  /** The lines of a file are the only ones without a newline that make it up, each with a newline after it; the last
      one may lack it. */
  lemma LinesAre(text: string, lines: seq<string>)
    ensures lines == Lines(text) <==>
            && (forall i :: 0 <= i < |lines| ==> NoNewline(lines[i]))
            && Terminated(lines) == if EndsLine(text) then text else text + "\n"
  {
    TerminatedLines(text);
    LinesOfTerminated(Lines(text));
    if forall i :: 0 <= i < |lines| ==> NoNewline(lines[i]) {
      LinesOfTerminated(lines);
    }
  }

  // ----- the fields of a line

  lemma CutIs(s: string)
    ensures
      var cut := CutBar(s);
      match cut.tail
      case None => Split(s, '|') == [cut.head]
      case Some(rest) => Split(s, '|') == [cut.head] + Split(rest, '|') && s == cut.head + ['|'] + rest
  {
    var end := Find(s, '|', 0);
    assert s[0..] == s;
    CutFrom(s, 0);
    if end == |s| {
      assert s[0..end] == s;
      SplitSingle(s, '|');
    } else {
      assert s == s[..end] + ['|'] + s[end + 1..];
      SplitFirst(s[..end], '|', s[end + 1..]);
    }
  }

  lemma EmailFieldIs(line: string)
    ensures EmailField(line) == if |Split(line, '|')| < 2 then None else Some(Split(line, '|')[1])
  {
    CutIs(line);
    if CutBar(line).tail.Some? {
      CutIs(CutBar(line).tail.value);
    }
  }

  predicate IsStart(s: string, h: string) {
    h <= s && |h| == if |s| < 64 then |s| else 64
  }

  /** Login reads the first three fields of a line that has them, and as hash the first 64 characters after the third
      bar; where there is no third bar, those of the line itself. */
  predicate IsRow(line: string, fields: seq<string>, row: Option<Row>) {
    if |fields| < 3 then row == None
    else
      && row.Some? && row.value.id == fields[0] && row.value.email == fields[1] && row.value.name == fields[2]
      && IsStart(if |fields| == 3 then line else Join(fields[3..], '|'), row.value.hash)
  }

  lemma LoginRowIs(line: string)
    ensures IsRow(line, Split(line, '|'), LoginRow(line))
  {
    var id := CutBar(line);
    CutIs(line);
    if id.tail.Some? {
      var email := CutBar(id.tail.value);
      CutIs(id.tail.value);
      if email.tail.Some? {
        NameAndHash(line, id.head, email.head, email.tail.value);
      }
    }
  }

  lemma NameAndHash(line: string, id: string, email: string, rest: string)
    ensures IsRow(line, [id] + ([email] + Split(rest, '|')), Some(MakeRow(line, id, email, CutBar(rest))))
  {
    var name := CutBar(rest);
    CutIs(rest);
    if name.tail.Some? {
      SplitIs(name.tail.value, '|', Split(name.tail.value, '|'));
      FromFourth(id, email, name.head, Split(name.tail.value, '|'));
    }
  }

  lemma FromFourth(id: string, email: string, name: string, more: seq<string>)
    ensures ([id] + ([email] + ([name] + more)))[3..] == more
  {
  }

  lemma BarMeansTwo(line: string)
    ensures '|' in line <==> |Split(line, '|')| >= 2
  {
    var fields := Split(line, '|');
    SplitIs(line, '|', fields);
    if |fields| == 1 {
      assert fields[0] == line;
    } else {
      assert line == fields[0] + ['|'] + Join(fields[1..], '|');
    }
  }

  // ----- what the whole file says

  function UserLines(lines: seq<string>): set<int> {
    set i | 0 <= i < |lines| && '|' in lines[i]
  }

  /** Sign-up counts the lines with a bar. */
  lemma {:induction false} CountUsersIs(lines: seq<string>)
    ensures CountUsers(lines) == |UserLines(lines)|
    decreases |lines|
  {
    if lines != [] {
      var n := |lines| - 1;
      CountUsersIs(lines[..n]);
      EmailFieldIs(lines[n]);
      BarMeansTwo(lines[n]);
      assert UserLines(lines) == UserLines(lines[..n]) + if '|' in lines[n] then {n} else {};
    }
  }

  predicate IsRowOf(line: string, email: string) {
    |Split(line, '|')| >= 3 && Split(line, '|')[1] == email
  }

  /** On any file the first line with three fields, the second of them the email, decides: its id, name and email when
      the hash is right, an exception when the id is no number, and a refusal that leaves an empty profile otherwise. */
  lemma FirstRowDecides(lines: seq<string>, k: nat, email: string, hash: string)
    requires k < |lines| && IsRowOf(lines[k], email) && forall i :: 0 <= i < k ==> !IsRowOf(lines[i], email)
    ensures
      var fields, row := Split(lines[k], '|'), LoginRow(lines[k]);
      && row.Some?
      && LoginLines(lines, email, hash) ==
         if row.value.hash != hash then Refused(UserProfile(-1, "", "", false))
         else match Stoi(fields[0])
           case None => Threw
           case Some(id) => Success(UserProfile(id, fields[2], email, true))
  {
    OtherRows(lines[..k], email);
    LoginSkipsAll(lines[..k], lines[k..], email, hash);
    assert lines == lines[..k] + lines[k..];
    LoginRowIs(lines[k]);
    assert lines[k..][0] == lines[k];
  }

  lemma OtherRows(lines: seq<string>, email: string)
    requires forall i :: 0 <= i < |lines| ==> !IsRowOf(lines[i], email)
    ensures forall i :: 0 <= i < |lines| && LoginRow(lines[i]).Some? ==> LoginRow(lines[i]).value.email != email
  {
    forall i | 0 <= i < |lines| && LoginRow(lines[i]).Some? ensures LoginRow(lines[i]).value.email != email {
      LoginRowIs(lines[i]);
    }
  }

  lemma NoRowRefuses(lines: seq<string>, email: string, hash: string)
    requires forall i :: 0 <= i < |lines| ==> !IsRowOf(lines[i], email)
    ensures LoginLines(lines, email, hash) ==
            Refused(UserProfile(-1, "Email address not present within database", "", false))
  {
    OtherRows(lines, email);
    LoginSkipsAll(lines, [], email, hash);
    assert lines + [] == lines;
  }

  // ----- reading a number

  predicate AllSpace(s: string) {
    forall i :: 0 <= i < |s| ==> s[i] == ' ' || s[i] == '\t' || s[i] == '\n' || s[i] as int in {11, 12, 13}
  }

  predicate NoDigitFirst(s: string) {
    s == "" || !('0' <= s[0] <= '9')
  }

  lemma {:induction false} SkipSpaces(spaces: string, rest: string)
    requires AllSpace(spaces)
    ensures SkipSpace(spaces + rest) == SkipSpace(rest)
    decreases |spaces|
  {
    if spaces == "" {
      assert spaces + rest == rest;
    } else {
      assert (spaces + rest)[1..] == spaces[1..] + rest;
      SkipSpaces(spaces[1..], rest);
    }
  }

  lemma {:induction false} LeadingDigitsAre(digits: string, rest: string)
    requires AllDigits(digits) && NoDigitFirst(rest)
    ensures LeadingDigits(digits + rest) == digits
    decreases |digits|
  {
    if digits == "" {
      assert digits + rest == rest;
    } else {
      assert (digits + rest)[1..] == digits[1..] + rest;
      LeadingDigitsAre(digits[1..], rest);
    }
  }

  /** White space, at most one sign, then digits: their value with the sign, or an exception when there is none. */
  lemma StoiIs(spaces: string, sign: string, digits: string, rest: string)
    requires AllSpace(spaces) && (sign == "" || sign == "-" || sign == "+") && AllDigits(digits) && NoDigitFirst(rest)
    requires sign == digits == "" && rest != "" ==> !AllSpace([rest[0]]) && rest[0] != '-' && rest[0] != '+'
    ensures Stoi(spaces + (sign + (digits + rest))) ==
            if digits == "" then None else Some(if sign == "-" then -(Value(digits) as int) else Value(digits))
  {
    var text := digits + rest;
    SkipSpaces(spaces, sign + text);
    LeadingDigitsAre(digits, rest);
    if sign == "" {
      assert sign + text == text;
      StartsNumber(digits, rest);
    } else {
      assert (sign + text)[0] == sign[0] && (sign + text)[1..] == text;
    }
  }

  lemma StartsNumber(digits: string, rest: string)
    requires AllDigits(digits)
    requires digits == "" && rest != "" ==> !AllSpace([rest[0]]) && rest[0] != '-' && rest[0] != '+'
    ensures
      var text := digits + rest;
      SkipSpace(text) == text && (text != "" ==> text[0] != '-' && text[0] != '+')
  {
    if digits != "" {
      assert (digits + rest)[0] == digits[0];
    } else if rest != "" {
      assert (digits + rest)[0] == [rest[0]][0];
    }
  }
}

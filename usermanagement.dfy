/** The user management page: CSV bulk import of accounts, which parses the
    uploaded text line by line and merges the new accounts into the list
    without re-adding known emails, and deletion of an account by id. */
module UserManagement {
  import opened Prelude
  import opened Accounts
  import opened JsString

  /** The uploaded file as the reader hands it over: its name and its text. */
  datatype CsvFile = CsvFile(name: string, text: string)

  datatype UploadError = NotCsv | NoValidUsers

  /** The banner the page shows; `Registered` reports the number of parsed rows. */
  datatype Message = UploadFailed(error: UploadError) | Registered(count: nat)

  /** What one upload does: nothing without a file, a refusal, or a new list
      together with the count the banner reports. */
  datatype UploadOutcome = NoFile | Rejected(error: UploadError) | Imported(users: seq<User>, count: nat)

  // ---------------------------------------------------------------- parsing

  /** `text.split('\n')` */
  function Lines(text: string): (lines: seq<string>)
    ensures |lines| >= 1
  {
    Split(text, '\n')
  }

  /** The header test applied to the first line only. */
  predicate IsHeader(line: string)
  {
    Includes(line, "email") || Includes(line, "이메일")
  }

  /** `startIndex` */
  function FirstDataLine(lines: seq<string>): nat
    requires |lines| >= 1
  {
    if IsHeader(lines[0]) then 1 else 0
  }

  /** `parts.map(s => s.trim())` */
  function TrimEach(parts: seq<string>): (r: seq<string>)
    ensures |r| == |parts|
  {
    seq(|parts|, k requires 0 <= k < |parts| => Trim(parts[k]))
  }

  /** The trimmed comma-separated fields of the trimmed line. */
  function Fields(line: string): (f: seq<string>)
    ensures |f| >= 1
  {
    TrimEach(Split(Trim(line), ','))
  }

  /** `email.split('@')[0]` */
  function LocalPart(email: string): string
  {
    Split(email, '@')[0]
  }

  predicate IsAdminRole(field: string)
  {
    field == "admin" || field == "관리자"
  }

  /** The body of the `for` loop for one line: the account it yields, if any.
      `id` stands for the random id the page generates. */
  function ParseLine(line: string, id: string): Option<User>
  {
    if Trim(line) == "" then None else AccountOf(Fields(line), id)
  }

  /** The account the fields of a non-blank line describe, if any. */
  function AccountOf(f: seq<string>, id: string): Option<User>
    requires |f| >= 1
  {
    var email := f[0];
    if email != "" && Includes(email, "@") then
      var name := if |f| > 1 && f[1] != "" then f[1] else LocalPart(email);
      var role := if |f| > 2 && IsAdminRole(f[2]) then Admin else Member;
      Some(User(id, email, name, role, None))
    else None
  }

  /** The parser a line goes through: the line and the id it would get. */
  type LineParser = (string, string) -> Option<User>

  /** What line `k` contributes to `newUsers` when read with `parse`. */
  function Row(parse: LineParser, lines: seq<string>, k: nat, freshId: nat -> string): seq<User>
    requires k < |lines|
  {
    match parse(lines[k], freshId(k))
    case Some(u) => [u]
    case None => []
  }

  /** `newUsers` after lines `start` up to `end` (exclusive) have been read with `parse`. */
  function Rows(parse: LineParser, lines: seq<string>, start: nat, end: nat, freshId: nat -> string): seq<User>
    requires end <= |lines|
    decreases end
  {
    if end <= start then [] else Rows(parse, lines, start, end - 1, freshId) + Row(parse, lines, end - 1, freshId)
  }

  /** `newUsers` once the whole file has been read. */
  function ParsedUsers(text: string, freshId: nat -> string): seq<User>
  {
    var lines := Lines(text);
    Rows(ParseLine, lines, FirstDataLine(lines), |lines|, freshId)
  }

  /** The read loop of the upload handler. */
  method ParseUsers(text: string, freshId: nat -> string) returns (newUsers: seq<User>)
    ensures newUsers == ParsedUsers(text, freshId)
  {
    var lines := Split(text, '\n');
    newUsers := [];
    var startIndex := if Includes(lines[0], "email") || Includes(lines[0], "이메일") then 1 else 0;
    var i := startIndex;
    while i < |lines|
      invariant startIndex <= i <= |lines|
      invariant newUsers == Rows(ParseLine, lines, startIndex, i, freshId)
    {
      var account := ParseLine(lines[i], freshId(i));
      if account.Some? {
        newUsers := newUsers + [account.value];
      }
      i := i + 1;
    }
  }

  // ---------------------------------------------------------------- merging

  /** `updatedUsers` after the `forEach`: each incoming account, in order, is
      appended unless an account with its email is already in the list. */
  function Merged(existing: seq<User>, incoming: seq<User>): seq<User>
    decreases |incoming|
  {
    if incoming == [] then existing
    else
      var acc := Merged(existing, incoming[..|incoming| - 1]);
      var nu := incoming[|incoming| - 1];
      if HasEmail(acc, nu.email) then acc else acc + [nu]
  }

  /** The merge loop of the upload handler. */
  method MergeUsers(existing: seq<User>, incoming: seq<User>) returns (updated: seq<User>)
    ensures updated == Merged(existing, incoming)
  {
    updated := existing;
    var k := 0;
    while k < |incoming|
      invariant 0 <= k <= |incoming|
      invariant updated == Merged(existing, incoming[..k])
    {
      var nu := incoming[k];
      assert incoming[..k + 1][..k] == incoming[..k];
      if FindByEmail(updated, nu.email).None? {
        updated := updated + [nu];
      }
      k := k + 1;
    }
    assert incoming[..|incoming|] == incoming;
  }

  /** The old list is kept, in order, as a prefix of the merged one. */
  lemma {:induction false} MergedExtends(existing: seq<User>, incoming: seq<User>)
    ensures |existing| <= |Merged(existing, incoming)|
    ensures Merged(existing, incoming)[..|existing|] == existing
    decreases |incoming|
  {
    if incoming != [] {
      MergedExtends(existing, incoming[..|incoming| - 1]);
    }
  }

  /** An email is in a list with one more account exactly when it is in the
      list or is that account's email. */
  lemma HasEmailSnoc(users: seq<User>, u: User, email: string)
    ensures HasEmail(users + [u], email) <==> HasEmail(users, email) || u.email == email
  {
    var m := users + [u];
    assert m[|users|] == u;
    if HasEmail(m, email) && u.email != email {
      var i :| 0 <= i < |m| && m[i].email == email;
      assert users[i] == m[i];
    }
    if HasEmail(users, email) {
      var i :| 0 <= i < |users| && users[i].email == email;
      assert m[i] == users[i];
    }
  }

  /** Every merged account comes from the old list or the new rows, and every
      email of either ends up in the merged list. */
  lemma {:induction false} MergedEmails(existing: seq<User>, incoming: seq<User>, email: string)
    ensures HasEmail(Merged(existing, incoming), email) <==> HasEmail(existing, email) || HasEmail(incoming, email)
    decreases |incoming|
  {
    if incoming != [] {
      var init := incoming[..|incoming| - 1];
      var nu := incoming[|incoming| - 1];
      var acc := Merged(existing, init);
      MergedEmails(existing, init, email);
      MergedEmails(existing, init, nu.email);
      assert incoming == init + [nu];
      HasEmailSnoc(init, nu, email);
      HasEmailSnoc(acc, nu, email);
    }
  }

  /** If the old list had unique emails, so does the merged one. */
  lemma {:induction false} MergedKeepsUnique(existing: seq<User>, incoming: seq<User>)
    ensures UniqueEmails(existing) ==> UniqueEmails(Merged(existing, incoming))
    decreases |incoming|
  {
    if incoming != [] && UniqueEmails(existing) {
      var init := incoming[..|incoming| - 1];
      var nu := incoming[|incoming| - 1];
      MergedKeepsUnique(existing, init);
      var acc := Merged(existing, init);
      if !HasEmail(acc, nu.email) {
        var m := acc + [nu];
        forall i, j | 0 <= i < j < |m| ensures m[i].email != m[j].email {
          if j == |acc| {
            assert m[i] == acc[i];
          } else {
            assert m[i] == acc[i] && m[j] == acc[j];
          }
        }
      }
    }
  }

  /** When every incoming email is already known, the merge adds nothing. */
  lemma {:induction false} MergedKnownAddsNothing(existing: seq<User>, incoming: seq<User>)
    requires forall k :: 0 <= k < |incoming| ==> HasEmail(existing, incoming[k].email)
    ensures Merged(existing, incoming) == existing
    decreases |incoming|
  {
    if incoming != [] {
      var init := incoming[..|incoming| - 1];
      assert forall k :: 0 <= k < |init| ==> init[k] == incoming[k];
      MergedKnownAddsNothing(existing, init);
      assert HasEmail(existing, incoming[|incoming| - 1].email);
    }
  }

  /** The appended accounts are new rows taken in file order. */
  lemma {:induction false} MergedTailFromIncoming(existing: seq<User>, incoming: seq<User>)
    ensures |existing| <= |Merged(existing, incoming)|
    ensures Subsequence(Merged(existing, incoming)[|existing|..], incoming)
    decreases |incoming|
  {
    MergedExtends(existing, incoming);
    if incoming != [] {
      var init := incoming[..|incoming| - 1];
      var nu := incoming[|incoming| - 1];
      MergedTailFromIncoming(existing, init);
      var acc := Merged(existing, init);
      assert incoming == init + [nu];
      SubsequenceSnoc(acc[|existing|..], init, nu);
      if !HasEmail(acc, nu.email) {
        assert (acc + [nu])[|existing|..] == acc[|existing|..] + [nu];
      }
    }
  }

  /** Row `k` is the first of the new rows with its email, and no account of
      the old list has that email: the condition under which the `forEach`
      appends it. */
  predicate FirstNewRow(existing: seq<User>, incoming: seq<User>, k: int)
  {
    && 0 <= k < |incoming|
    && !HasEmail(existing, incoming[k].email)
    && forall j :: 0 <= j < k ==> incoming[j].email != incoming[k].email
  }

  /** A first new row of a prefix of the rows is a first new row of all of them. */
  lemma FirstNewRowOfPrefix(existing: seq<User>, incoming: seq<User>, n: nat, k: int)
    requires n <= |incoming| && FirstNewRow(existing, incoming[..n], k)
    ensures FirstNewRow(existing, incoming, k) && incoming[..n][k] == incoming[k]
  {
    assert forall j :: 0 <= j <= k ==> incoming[..n][j] == incoming[j];
  }

  /** Where one appended account comes from: a first new row. */
  lemma {:induction false} MergedRowOrigin(existing: seq<User>, incoming: seq<User>, i: int)
    requires |existing| <= i < |Merged(existing, incoming)|
    ensures exists k :: FirstNewRow(existing, incoming, k) && Merged(existing, incoming)[i] == incoming[k]
    decreases |incoming|
  {
    assert incoming != [];
    var n := |incoming| - 1;
    var init := incoming[..n];
    var nu := incoming[n];
    var acc := Merged(existing, init);
    assert Merged(existing, incoming) == (if HasEmail(acc, nu.email) then acc else acc + [nu]);
    if i < |acc| {
      MergedRowOrigin(existing, init, i);
      var k :| FirstNewRow(existing, init, k) && acc[i] == init[k];
      FirstNewRowOfPrefix(existing, incoming, n, k);
    } else {
      MergedEmails(existing, init, nu.email);
      assert forall j :: 0 <= j < n ==> init[j] == incoming[j];
      assert FirstNewRow(existing, incoming, n);
    }
  }

  /** The per-row rule, one direction: every appended account is a row whose
      email is in neither the old list nor an earlier row. In particular a
      row whose email the old list holds, even more than once, is skipped,
      and of two rows with one new email only the first is kept. */
  lemma MergedAppendsOnlyFirstNewRows(existing: seq<User>, incoming: seq<User>)
    ensures |existing| <= |Merged(existing, incoming)|
    ensures forall i :: |existing| <= i < |Merged(existing, incoming)| ==>
      exists k :: FirstNewRow(existing, incoming, k) && Merged(existing, incoming)[i] == incoming[k]
  {
    MergedExtends(existing, incoming);
    forall i | |existing| <= i < |Merged(existing, incoming)|
      ensures exists k :: FirstNewRow(existing, incoming, k) && Merged(existing, incoming)[i] == incoming[k]
    {
      MergedRowOrigin(existing, incoming, i);
    }
    assert forall i :: |existing| <= i < |Merged(existing, incoming)| ==>
      exists k :: FirstNewRow(existing, incoming, k) && Merged(existing, incoming)[i] == incoming[k];
  }

  /** The per-row rule, other direction: every row whose email is in neither
      the old list nor an earlier row is appended. */
  lemma MergedKeepsFirstNewRows(existing: seq<User>, incoming: seq<User>, k: nat)
    requires FirstNewRow(existing, incoming, k)
    ensures |existing| <= |Merged(existing, incoming)|
    ensures incoming[k] in Merged(existing, incoming)[|existing|..]
  {
    var m := Merged(existing, incoming);
    var e := incoming[k].email;
    MergedExtends(existing, incoming);
    MergedEmails(existing, incoming, e);
    assert HasEmail(incoming, e);
    var i :| 0 <= i < |m| && m[i].email == e;
    assert forall j :: 0 <= j < |existing| ==> m[j] == existing[j];
    assert i >= |existing|;
    MergedAppendsOnlyFirstNewRows(existing, incoming);
    var k' :| FirstNewRow(existing, incoming, k') && m[i] == incoming[k'];
    assert k' == k;
    assert m[|existing|..][i - |existing|] == incoming[k];
  }

  /** The first new rows among the first `n` rows, in file order: an
      independent statement of what the merge appends. */
  function FirstNewRows(existing: seq<User>, incoming: seq<User>, n: nat): (r: seq<User>)
    requires n <= |incoming|
    ensures |r| <= n
  {
    if n == 0 then []
    else FirstNewRows(existing, incoming, n - 1) + (if FirstNewRow(existing, incoming, n - 1) then [incoming[n - 1]] else [])
  }

  /** Which rows are first new rows does not depend on the rows after them. */
  lemma {:induction false} FirstNewRowsPrefix(existing: seq<User>, incoming: seq<User>, m: nat, n: nat)
    requires n <= m <= |incoming|
    ensures FirstNewRows(existing, incoming[..m], n) == FirstNewRows(existing, incoming, n)
    decreases n
  {
    if n > 0 {
      FirstNewRowsPrefix(existing, incoming, m, n - 1);
      assert forall j :: 0 <= j < n ==> incoming[..m][j] == incoming[j];
      assert FirstNewRow(existing, incoming[..m], n - 1) == FirstNewRow(existing, incoming, n - 1);
    }
  }

  /** The per-row rule, exactly: the merged list is the old list followed by
      precisely the first new rows, each once, in file order. Repeated
      identical rows are thus appended once, at the first occurrence. */
  lemma {:induction false} MergedIsFirstNewRows(existing: seq<User>, incoming: seq<User>)
    ensures Merged(existing, incoming) == existing + FirstNewRows(existing, incoming, |incoming|)
    decreases |incoming|
  {
    if incoming != [] {
      var n := |incoming| - 1;
      var init := incoming[..n];
      var nu := incoming[n];
      var acc := Merged(existing, init);
      MergedIsFirstNewRows(existing, init);
      FirstNewRowsPrefix(existing, incoming, n, n);
      MergedEmails(existing, init, nu.email);
      assert forall j :: 0 <= j < n ==> init[j] == incoming[j];
      if HasEmail(init, nu.email) {
        var j :| 0 <= j < n && init[j].email == nu.email;
        assert !FirstNewRow(existing, incoming, n);
      }
      assert HasEmail(acc, nu.email) <==> !FirstNewRow(existing, incoming, n);
    }
  }

  // ---------------------------------------------------------------- upload

  /** The whole upload handler as a function of the page's current list. */
  function Upload(existing: seq<User>, file: Option<CsvFile>, freshId: nat -> string): (r: UploadOutcome)
    ensures r.Imported? ==> |existing| <= |r.users| && r.users[..|existing|] == existing
    ensures r.Imported? && UniqueEmails(existing) ==> UniqueEmails(r.users)
    ensures r.Imported? ==> r.count > 0
    ensures r.Imported? ==> file.Some?
    ensures r.Imported? ==> (var parsed := ParsedUsers(file.value.text, freshId);
      r.users == Merged(existing, parsed) && r.count == |parsed|)
  {
    match file
    case None => NoFile
    case Some(f) =>
      if !EndsWith(f.name, ".csv") then Rejected(NotCsv)
      else
        var parsed := ParsedUsers(f.text, freshId);
        if parsed == [] then Rejected(NoValidUsers)
        else
          MergedExtends(existing, parsed);
          MergedKeepsUnique(existing, parsed);
          Imported(Merged(existing, parsed), |parsed|)
  }

  // ------------------------------------------------------------ properties

  /** The two refusals: a name not ending in `.csv`, checked first, and a
      file without a single valid row. Nothing else is refused. */
  lemma UploadRefusals(existing: seq<User>, f: CsvFile, freshId: nat -> string)
    ensures Upload(existing, Some(f), freshId) == Rejected(NotCsv) <==> !EndsWith(f.name, ".csv")
    ensures EndsWith(f.name, ".csv") ==>
      (Upload(existing, Some(f), freshId) == Rejected(NoValidUsers) <==> ParsedUsers(f.text, freshId) == [])
    ensures Upload(existing, Some(f), freshId).Rejected? || Upload(existing, Some(f), freshId).Imported?
  {
  }

  /** A line yields an account exactly when its first trimmed field contains
      `@`; blank lines are among those that yield nothing. */
  lemma ParseLineAccepts(line: string, id: string)
    ensures ParseLine(line, id).Some? <==> '@' in Fields(line)[0]
  {
    IncludesChar(Fields(line)[0], '@');
    assert "@" == ['@'];
    if Trim(line) == "" {
      assert Split("", ',') == [[]];
      assert Fields(line) == [Trim([])];
    }
  }

  /** The account a line yields: the given id, the first field as email, no
      password; the role is `admin` exactly for the third field `admin` or
      `관리자`; the name is the second field, or when that is missing or empty
      the part of the email before its first `@`. */
  lemma ParsedAccount(line: string, id: string)
    requires ParseLine(line, id).Some?
    ensures var u := ParseLine(line, id).value; var f := Fields(line);
      && u.id == id && u.email == f[0] && u.password.None?
      && (u.role == Admin <==> |f| > 2 && IsAdminRole(f[2]))
      && (|f| > 1 && f[1] != "" ==> u.name == f[1])
      && (!(|f| > 1 && f[1] != "") ==> '@' !in u.name && StartsWith(u.email, u.name + "@"))
  {
    var u := ParseLine(line, id).value;
    var f := Fields(line);
    ParseLineAccepts(line, id);
    if !(|f| > 1 && f[1] != "") {
      FirstPiece(u.email, '@');
      assert u.email[..|u.name| + 1] == u.name + "@";
    }
  }

  lemma {:induction false} TrimEachAppend(a: seq<string>, b: seq<string>)
    ensures TrimEach(a + b) == TrimEach(a) + TrimEach(b)
  {
    assert forall k :: 0 <= k < |a + b| ==> TrimEach(a + b)[k] == (TrimEach(a) + TrimEach(b))[k];
  }

  lemma NoSeparatorInWhitespace(w: string, c: char)
    requires AllWhitespace(w) && !IsWhitespace(c)
    ensures c !in w
  {
    forall k | 0 <= k < |w| ensures w[k] != c {
      assert IsWhitespace(w[k]);
    }
  }

  /** Splitting before or after removing the trailing whitespace gives the
      same trimmed fields. */
  lemma FieldsOfTrimStart(line: string)
    ensures Fields(line) == TrimEach(Split(TrimStart(line), ','))
  {
    var p := TrimStart(line);
    var q := TrimEnd(p);
    TrimEndShape(p);
    var w := p[|q|..];
    assert p == q + w;
    assert AllWhitespace(w);
    NoSeparatorInWhitespace(w, ',');
    SplitAppendWithoutSeparator(q, w, ',');
    TrimEachExtendLast(Split(q, ','), w);
  }

  /** Whitespace added to the last piece disappears once every piece is trimmed. */
  lemma TrimEachExtendLast(parts: seq<string>, w: string)
    requires |parts| >= 1 && AllWhitespace(w)
    ensures TrimEach(ExtendLast(parts, w)) == TrimEach(parts)
  {
    var n := |parts|;
    var e := ExtendLast(parts, w);
    forall k | 0 <= k < n ensures TrimEach(e)[k] == TrimEach(parts)[k] {
      if k == n - 1 {
        TrimDropsWhitespace(parts[k], w);
      } else {
        assert e[k] == parts[k];
      }
    }
  }

  /** Text after a further comma adds fields after the existing ones. */
  lemma FieldsAfterComma(line: string, extra: string)
    requires Trim(line) != ""
    ensures Fields(line + "," + extra) == Fields(line) + TrimEach(Split(TrimEnd(extra), ','))
  {
    var ts := TrimStart(line);
    assert ts != [];
    assert line + "," + extra == line + ("," + extra);
    TrimStartAppend(line, "," + extra);
    assert ts + ("," + extra) == (ts + ",") + extra;
    TrimEndAfterSolid(ts + ",", extra);
    assert Trim(line + "," + extra) == ts + [','] + TrimEnd(extra);
    SplitAtSeparator(ts, TrimEnd(extra), ',');
    TrimEachAppend(Split(ts, ','), Split(TrimEnd(extra), ','));
    FieldsOfTrimStart(line);
  }

  /** Fields after the third are ignored: appending `,extra` to a line that
      already has three fields does not change what it yields. */
  lemma ExtraFieldsIgnored(line: string, extra: string, id: string)
    requires |Fields(line)| >= 3
    ensures ParseLine(line + "," + extra, id) == ParseLine(line, id)
  {
    BlankLineHasOneField(line);
    FieldsAfterComma(line, extra);
    var f, g := Fields(line), Fields(line + "," + extra);
    assert g[0] == f[0] && g[1] == f[1] && g[2] == f[2];
    BlankLineHasOneField(line + "," + extra);
  }

  lemma BlankLineHasOneField(line: string)
    ensures Trim(line) == "" ==> Fields(line) == [""]
  {
    if Trim(line) == "" {
      assert Split("", ',') == [[]];
    }
  }

  /** Row membership: an account is read exactly when some line in range yields it. */
  lemma {:induction false} RowsMembers(parse: LineParser, lines: seq<string>, start: nat, end: nat, freshId: nat -> string, u: User)
    requires end <= |lines|
    ensures u in Rows(parse, lines, start, end, freshId) <==>
      exists k :: start <= k < end && parse(lines[k], freshId(k)) == Some(u)
    decreases end
  {
    if end > start {
      RowsMembers(parse, lines, start, end - 1, freshId, u);
      var before := Rows(parse, lines, start, end - 1, freshId);
      var last := Row(parse, lines, end - 1, freshId);
      assert Rows(parse, lines, start, end, freshId) == before + last;
      assert u in last <==> parse(lines[end - 1], freshId(end - 1)) == Some(u);
      if exists k :: start <= k < end && parse(lines[k], freshId(k)) == Some(u) {
        var k :| start <= k < end && parse(lines[k], freshId(k)) == Some(u);
        assert k == end - 1 || start <= k < end - 1;
      }
    }
  }

  /** Splitting the first line off the rows. */
  lemma {:induction false} RowsFirst(parse: LineParser, lines: seq<string>, end: nat, freshId: nat -> string)
    requires 1 <= end <= |lines|
    ensures Rows(parse, lines, 0, end, freshId) == Row(parse, lines, 0, freshId) + Rows(parse, lines, 1, end, freshId)
    decreases end
  {
    if end > 1 {
      RowsFirst(parse, lines, end - 1, freshId);
    }
  }

  /** The header rule: the first line is dropped exactly when it contains
      `email` or `이메일`, and every later line is parsed whatever it contains. */
  lemma HeaderOnlyFirstLine(text: string, freshId: nat -> string)
    ensures var lines := Lines(text);
      ParsedUsers(text, freshId) ==
        (if IsHeader(lines[0]) then [] else Row(ParseLine, lines, 0, freshId)) + Rows(ParseLine, lines, 1, |lines|, freshId)
  {
    var lines := Lines(text);
    if !IsHeader(lines[0]) {
      RowsFirst(ParseLine, lines, |lines|, freshId);
    }
  }

  /** A parser whose id argument only becomes the id of the account it yields. */
  ghost predicate IdBlind(parse: LineParser)
  {
    forall line, a, b :: (parse(line, a).Some? <==> parse(line, b).Some?) &&
      (parse(line, a).Some? ==> parse(line, b).value == parse(line, a).value.(id := b))
  }

  /** Reading the same lines with other ids gives the same accounts up to their ids. */
  lemma {:induction false} RowsIdIndependent(parse: LineParser, lines: seq<string>, start: nat, end: nat, f1: nat -> string, f2: nat -> string)
    requires IdBlind(parse)
    requires end <= |lines|
    ensures |Rows(parse, lines, start, end, f1)| == |Rows(parse, lines, start, end, f2)|
    ensures forall k :: 0 <= k < |Rows(parse, lines, start, end, f1)| ==>
      Rows(parse, lines, start, end, f2)[k] == Rows(parse, lines, start, end, f1)[k].(id := Rows(parse, lines, start, end, f2)[k].id)
    decreases end
  {
    if end > start {
      RowsIdIndependent(parse, lines, start, end - 1, f1, f2);
      var line := lines[end - 1];
      assert parse(line, f1(end - 1)).Some? <==> parse(line, f2(end - 1)).Some?;
    }
  }

  /** `ParseLine` uses the id for nothing but the id of the account it yields:
      whether a line yields an account, and every other field of it, is the
      same under any id. */
  lemma ParseLineIsIdBlind()
    ensures IdBlind(ParseLine)
  {
    forall line, a, b
      ensures (ParseLine(line, a).Some? <==> ParseLine(line, b).Some?) &&
        (ParseLine(line, a).Some? ==> ParseLine(line, b).value == ParseLine(line, a).value.(id := b))
    {
    }
  }

  /** Importing the same file a second time adds no accounts, leaves the list
      as the first import made it, and reports the same count. */
  lemma ImportTwiceAddsNothing(existing: seq<User>, file: Option<CsvFile>, f1: nat -> string, f2: nat -> string)
    requires Upload(existing, file, f1).Imported?
    ensures var first := Upload(existing, file, f1);
      Upload(first.users, file, f2) == Imported(first.users, first.count)
  {
    var text := file.value.text;
    var lines := Lines(text);
    var start := FirstDataLine(lines);
    var p1, p2 := ParsedUsers(text, f1), ParsedUsers(text, f2);
    var merged := Merged(existing, p1);
    ParseLineIsIdBlind();
    RowsIdIndependent(ParseLine, lines, start, |lines|, f1, f2);
    forall k | 0 <= k < |p2| ensures HasEmail(merged, p2[k].email) {
      assert p2[k].email == p1[k].email;
      MergedEmails(existing, p1, p2[k].email);
    }
    MergedKnownAddsNothing(merged, p2);
  }

  /** Removes every account with the given id (`users.filter(u => u.id !== id)`). */
  function WithoutUser(users: seq<User>, id: string): (r: seq<User>)
    ensures forall u :: u in r <==> u in users && u.id != id
    ensures forall u: User :: u.id != id ==> multiset(r)[u] == multiset(users)[u]
    ensures forall u: User :: u.id == id ==> multiset(r)[u] == 0
    ensures Subsequence(r, users)
  {
    var keep := (u: User) => u.id != id;
    FilterKeepsExactly(users, keep);
    Filter(users, keep)
  }

  /** Deleting an id that is not in the list changes nothing. */
  lemma DeleteAbsentIdIsNoop(users: seq<User>, id: string)
    requires forall k :: 0 <= k < |users| ==> users[k].id != id
    ensures WithoutUser(users, id) == users
  {
    var keep := (u: User) => u.id != id;
    FilterAllKept(users, keep);
  }

  /** Deleting twice is deleting once. */
  lemma DeleteTwiceIsDeleteOnce(users: seq<User>, id: string)
    ensures WithoutUser(WithoutUser(users, id), id) == WithoutUser(users, id)
  {
    var keep := (u: User) => u.id != id;
    FilterIdempotent(users, keep);
  }

  /** The banner an outcome leaves. */
  function MessageFor(r: UploadOutcome): Option<Message>
  {
    match r
    case NoFile => None
    case Rejected(e) => Some(UploadFailed(e))
    case Imported(_, n) => Some(Registered(n))
  }

  /** The `UserManagement` page: the list it shows, its banner, and the
      storage entry it loads from and writes back. */
  class UserManager {
    const store: UserStorage
    var users: seq<User>
    var message: Option<Message>

    /** The mount effect: the stored list, or the empty list when nothing is stored. */
    constructor (store: UserStorage)
      ensures this.store == store
      ensures users == (if store.saved.Some? then store.saved.value else [])
      ensures message == None
    {
      this.store := store;
      users := if store.saved.Some? then store.saved.value else [];
      message := None;
    }

    /** `saveUsers`: the page list and the storage entry both become the new list. */
    method SaveUsers(newUsers: seq<User>)
      modifies this`users, store
      ensures users == newUsers && store.saved == Some(newUsers)
    {
      users := newUsers;
      store.saved := Some(newUsers);
    }

    /** `handleFileUpload` once the reader has delivered the text. Nothing is
        written unless the upload is imported; the banner reports the outcome. */
    method HandleFileUpload(file: Option<CsvFile>, freshId: nat -> string) returns (outcome: UploadOutcome)
      modifies this, store
      ensures outcome == Upload(old(users), file, freshId)
      ensures outcome.NoFile? ==> message == old(message)
      ensures !outcome.NoFile? ==> message == MessageFor(outcome)
      ensures outcome.Imported? ==> users == outcome.users && store.saved == Some(outcome.users)
      ensures !outcome.Imported? ==> users == old(users) && store.saved == old(store.saved)
    {
      if file.None? {
        return NoFile;
      }
      var f := file.value;
      if !EndsWith(f.name, ".csv") {
        message := Some(UploadFailed(NotCsv));
        return Rejected(NotCsv);
      }
      var newUsers := ParseUsers(f.text, freshId);
      if |newUsers| == 0 {
        message := Some(UploadFailed(NoValidUsers));
        return Rejected(NoValidUsers);
      }
      var updatedUsers := MergeUsers(users, newUsers);
      SaveUsers(updatedUsers);
      message := Some(Registered(|newUsers|));
      outcome := Imported(updatedUsers, |newUsers|);
    }

    /** `deleteUser` */
    method DeleteUser(id: string)
      modifies this`users, store
      ensures users == WithoutUser(old(users), id) && store.saved == Some(users)
    {
      SaveUsers(WithoutUser(users, id));
    }
  }
}

/** The dbuser-map file, from user names to accounts and container ids (src/dbuser_map.c). */
module UserMap {
  import opened Data
  import opened CString

  const BUFFER := 1024

  datatype Entry = Entry(account: string, uid: int)

  // ----- The scanner, on values -----

  /** trim: the string without its spaces and newlines. */
  function Trim(s: string): string {
    if s == "" then ""
    else (if s[0] == ' ' || s[0] == '\n' then "" else [s[0]]) + Trim(s[1..])
  }

  function Take(s: string, n: nat): string {
    if |s| <= n then s else s[..n]
  }

  /** The first space at or after a position, the end of the string if there is none. */
  function NextSpace(s: string, from: nat): (at: nat)
    requires from <= |s|
    ensures from <= at <= |s|
    ensures at < |s| ==> s[at] == ' '
    ensures forall i :: from <= i < at ==> s[i] != ' '
    decreases |s| - from
  {
    if from == |s| || s[from] == ' ' then from else NextSpace(s, from + 1)
  }

  /** A name buffer keeps at most 63 characters of a field. */
  function Field(s: string): string {
    Take(s, USERNAMEMAXLEN - 1)
  }

  /** The space that ends the user's name; a space in front of the line does not count. */
  function UserEnd(buf: string): nat
    requires buf != ""
  {
    NextSpace(buf, 1)
  }

  /** The space that ends the account's name, or the end of the line. */
  function AccountEnd(buf: string): nat
    requires buf != "" && UserEnd(buf) < |buf|
  {
    NextSpace(buf, UserEnd(buf) + 1)
  }

  function UserField(buf: string): string
    requires buf != ""
  {
    Trim(Field(buf[..UserEnd(buf)]))
  }

  function AccountField(buf: string): string
    requires buf != ""
  {
    if UserEnd(buf) == |buf| then "" else Trim(Field(buf[UserEnd(buf) + 1..AccountEnd(buf)]))
  }

  function UidField(buf: string): string
    requires buf != ""
  {
    if UserEnd(buf) == |buf| || AccountEnd(buf) == |buf| then "" else Trim(Field(buf[AccountEnd(buf) + 1..]))
  }

  /** What fgets delivers one after the other: up to a newline, or as much as the buffer holds. */
  function LineEnd(content: string, n: nat): (end: nat)
    requires n < |content|
    ensures n < end <= |content|
    decreases |content| - n
  {
    if content[n] == '\n' || n + 1 == BUFFER - 1 || n + 1 == |content| then n + 1 else LineEnd(content, n + 1)
  }

  function Lines(content: string): (lines: seq<string>)
    ensures forall i :: 0 <= i < |lines| ==> lines[i] != ""
  {
    if content == "" then [] else [content[..LineEnd(content, 0)]] + Lines(content[LineEnd(content, 0)..])
  }

  function Joined(lines: seq<string>): string {
    if lines == [] then "" else lines[0] + Joined(lines[1..])
  }

  /** A line as fgets delivers it: no newline but at its end, and it ends before a newline only when the
      buffer is full or the file at its end. */
  predicate IsLine(line: string, last: bool) {
    && line != "" && |line| <= BUFFER - 1 && '\n' !in line[..|line| - 1]
    && (line[|line| - 1] == '\n' || |line| == BUFFER - 1 || last)
  }

  lemma {:induction false} LineEndMeaning(content: string, n: nat)
    requires n < |content| && n < BUFFER - 1 && '\n' !in content[..n]
    ensures var end := LineEnd(content, n); IsLine(content[..end], end == |content|)
    decreases |content| - n
  {
    if content[n] == '\n' || n + 1 == BUFFER - 1 || n + 1 == |content| {
      assert content[..n + 1][..n] == content[..n];
    } else {
      assert content[..n + 1] == content[..n] + [content[n]];
      LineEndMeaning(content, n + 1);
    }
  }

  /** The lines are the whole content, cut as fgets cuts it. */
  lemma {:induction false} LinesMeaning(content: string)
    ensures Joined(Lines(content)) == content
    ensures forall i :: 0 <= i < |Lines(content)| ==> IsLine(Lines(content)[i], i == |Lines(content)| - 1)
    decreases |content|
  {
    if content != "" {
      var end := LineEnd(content, 0);
      LineEndMeaning(content, 0);
      LinesMeaning(content[end..]);
      LinesUnfold(content, end);
      JoinNext(content[..end], content[end..], Lines(content[end..]));
      assert content[..end] + content[end..] == content;
    }
  }

  lemma LinesUnfold(content: string, end: nat)
    requires content != "" && end == LineEnd(content, 0)
    ensures Lines(content) == [content[..end]] + Lines(content[end..])
    ensures content[end..] == "" ==> Lines(content[end..]) == []
  {
  }

  lemma JoinNext(first: string, rest: string, more: seq<string>)
    requires Joined(more) == rest && IsLine(first, rest == "") && (rest == "" ==> more == [])
    requires forall i :: 0 <= i < |more| ==> IsLine(more[i], i == |more| - 1)
    ensures var lines := [first] + more;
            Joined(lines) == first + rest && forall i :: 0 <= i < |lines| ==> IsLine(lines[i], i == |lines| - 1)
  {
    var lines := [first] + more;
    assert lines[0] == first && lines[1..] == more;
    forall i | 0 <= i < |lines| ensures IsLine(lines[i], i == |lines| - 1) {
      if i > 0 {
        assert lines[i] == more[i - 1];
      }
    }
  }

  /** The map after one line: a user keeps its first entry, and an entry needs a positive uid. */
  function AddLine(m: map<string, Entry>, buf: string, separateLve: bool): map<string, Entry>
    requires buf != ""
  {
    var user, account := UserField(buf), AccountField(buf);
    var uid := if separateLve then Atoi(UidField(buf)) else BAD_LVE;
    if user == "" || account == "" || user in m || uid < 1 then m else m[user := Entry(account, uid)]
  }

  function AddLines(m: map<string, Entry>, lines: seq<string>, separateLve: bool): map<string, Entry>
    requires forall i :: 0 <= i < |lines| ==> lines[i] != ""
    decreases |lines|
  {
    if lines == [] then m else AddLines(AddLine(m, lines[0], separateLve), lines[1..], separateLve)
  }

  function ParseFile(content: string, separateLve: bool): map<string, Entry> {
    AddLines(map[], Lines(content), separateLve)
  }

  // ----- The character loop -----

  lemma TrimAt(s: string, i: nat)
    requires i < |s|
    ensures Trim(s[i..]) == (if s[i] == ' ' || s[i] == '\n' then "" else [s[i]]) + Trim(s[i + 1..])
  {
    assert s[i..][1..] == s[i + 1..];
  }

  method TrimBuffer(s: string) returns (d: string)
    ensures d == Trim(s)
  {
    d := "";
    var i := 0;
    while i < |s|
      invariant 0 <= i <= |s|
      invariant Trim(s) == d + Trim(s[i..])
    {
      TrimAt(s, i);
      if s[i] != ' ' && s[i] != '\n' {
        assert d + ([s[i]] + Trim(s[i + 1..])) == d + [s[i]] + Trim(s[i + 1..]);
        d := d + [s[i]];
      }
      i := i + 1;
    }
  }

  lemma {:induction false} TrimConcat(s: string, t: string)
    ensures Trim(s + t) == Trim(s) + Trim(t)
  {
    if s == "" {
      assert s + t == t;
    } else {
      assert (s + t)[1..] == s[1..] + t;
      TrimConcat(s[1..], t);
    }
  }

  /** One more character of a field: kept in the buffer if there is room, a blank in either case lost. */
  lemma FieldNext(s: string, low: nat, i: nat)
    requires low <= i < |s|
    ensures Field(s[low..i + 1]) == if i - low < USERNAMEMAXLEN - 1 then Field(s[low..i]) + [s[i]] else Field(s[low..i])
    ensures Trim(Field(s[low..i + 1]))
            == Trim(Field(s[low..i])) + if i - low < USERNAMEMAXLEN - 1 then Trim([s[i]]) else ""
  {
    assert s[low..i + 1] == s[low..i] + [s[i]];
    TrimConcat(Field(s[low..i]), [s[i]]);
  }

  /** A buffer that was given c where the field was: both trim to the same. */
  lemma Collected(buffer: string, s: string, low: nat, i: nat, given: string)
    requires low <= i < |s| && Trim(buffer) == Trim(Field(s[low..i]))
    requires Trim(given) == if i - low < USERNAMEMAXLEN - 1 then Trim([s[i]]) else ""
    ensures Trim(buffer + given) == Trim(Field(s[low..i + 1]))
  {
    FieldNext(s, low, i);
    TrimConcat(buffer, given);
  }

  /** Where the scan of a line stands before its i-th character; 0 stands for a split not seen yet. */
  ghost predicate Scanned(buf: string, i: nat, split: nat, split2: nat, username: string, accountName: string,
        uid: string)
    requires buf != "" && i <= |buf|
  {
    if split == 0 then
      && (i <= 1 || NextSpace(buf, 1) == NextSpace(buf, i))
      && Trim(username) == Trim(Field(buf[0..i])) && |username| <= i
      && accountName == "" && uid == "" && split2 == 0
    else
      && split == UserEnd(buf) < i && Trim(username) == UserField(buf)
      && if split2 == 0 then
           && NextSpace(buf, split + 1) == NextSpace(buf, i)
           && Trim(accountName) == Trim(Field(buf[split + 1..i])) && |accountName| <= i - split - 1
           && uid == ""
         else
           && split2 == AccountEnd(buf) < i && Trim(accountName) == AccountField(buf)
           && Trim(uid) == Trim(Field(buf[split2 + 1..i])) && |uid| <= i - split2 - 1
  }

  lemma TrimBlank()
    ensures Trim(" ") == "" && Trim("\n") == "" && Trim("") == ""
  {
    assert " "[1..] == "" && "\n"[1..] == "";
  }

  lemma ScannedOneField(buf: string, username: string)
    requires buf != "" && Scanned(buf, |buf|, 0, 0, username, "", "")
    ensures Trim(username) == UserField(buf) && AccountField(buf) == "" && UidField(buf) == ""
  {
    assert buf[0..|buf|] == buf[..|buf|] == buf;
    if |buf| > 1 {
      assert NextSpace(buf, |buf|) == |buf|;
    }
  }

  lemma ScannedTwoFields(buf: string, split: nat, username: string, accountName: string)
    requires buf != "" && 0 < split && Scanned(buf, |buf|, split, 0, username, accountName, "")
    ensures Trim(username) == UserField(buf) && Trim(accountName) == AccountField(buf) && UidField(buf) == ""
  {
    assert NextSpace(buf, |buf|) == |buf|;
  }

  lemma ScannedThreeFields(buf: string, split: nat, split2: nat, username: string, accountName: string, uid: string)
    requires buf != "" && 0 < split && 0 < split2 && Scanned(buf, |buf|, split, split2, username, accountName, uid)
    ensures Trim(username) == UserField(buf) && Trim(accountName) == AccountField(buf) && Trim(uid) == UidField(buf)
  {
    FieldsByEnds(buf, split, split2);
    assert buf[split2 + 1..|buf|] == buf[split2 + 1..];
  }

  lemma ScannedAll(buf: string, split: nat, split2: nat, username: string, accountName: string, uid: string)
    requires buf != "" && Scanned(buf, |buf|, split, split2, username, accountName, uid)
    ensures Trim(username) == UserField(buf) && Trim(accountName) == AccountField(buf) && Trim(uid) == UidField(buf)
  {
    ScannedSplits(buf, |buf|, split, split2, username, accountName, uid);
    TrimBlank();
    if split == 0 {
      ScannedOneField(buf, username);
    } else if split2 == 0 {
      ScannedTwoFields(buf, split, username, accountName);
    } else {
      ScannedThreeFields(buf, split, split2, username, accountName, uid);
    }
  }

  lemma UserChar(buf: string, i: nat, username: string)
    requires buf != "" && i < |buf| && buf[i] != ' ' && Scanned(buf, i, 0, 0, username, "", "")
    ensures Scanned(buf, i + 1, 0, 0, username + Kept(buf, 0, i), "", "")
  {
    Collected(username, buf, 0, i, Kept(buf, 0, i));
  }

  lemma UserSpace(buf: string, i: nat, username: string)
    requires buf != "" && i < |buf| && buf[i] == ' ' && Scanned(buf, i, 0, 0, username, "", "")
    ensures Scanned(buf, i + 1, i, 0, username, "", "")
  {
    TrimBlank();
    if i == 0 {
      Collected(username, buf, 0, 0, " ");
      TrimConcat(username, " ");
    } else {
      assert buf[0..i] == buf[..i];
    }
  }

  lemma AccountChar(buf: string, i: nat, split: nat, username: string, accountName: string)
    requires buf != "" && i < |buf| && buf[i] != ' ' && 0 < split &&
        Scanned(buf, i, split, 0, username, accountName, "")
    ensures Scanned(buf, i + 1, split, 0, username, accountName + Kept(buf, split + 1, i), "")
  {
    Collected(accountName, buf, split + 1, i, Kept(buf, split + 1, i));
  }

  lemma AccountSpace(buf: string, i: nat, split: nat, username: string, accountName: string)
    requires buf != "" && i < |buf| && buf[i] == ' ' && 0 < split &&
        Scanned(buf, i, split, 0, username, accountName, "")
    ensures Scanned(buf, i + 1, split, i, username, accountName, "")
  {
    TrimBlank();
  }

  lemma UidChar(buf: string, i: nat, split: nat, split2: nat, username: string, accountName: string, uid: string)
    requires buf != "" && i < |buf| && 0 < split && 0 < split2
    requires Scanned(buf, i, split, split2, username, accountName, uid)
    ensures Scanned(buf, i + 1, split, split2, username, accountName,
                    uid + if buf[i] == '\n' then "" else Kept(buf, split2 + 1, i))
  {
    var given := if buf[i] == '\n' then "" else Kept(buf, split2 + 1, i);
    KeptTrims(buf, split2 + 1, i);
    Collected(uid, buf, split2 + 1, i, given);
    UidNext(buf, i, split, split2, username, accountName, uid, uid + given);
  }

  /** A newline may as well not be kept. */
  lemma KeptTrims(buf: string, low: nat, i: nat)
    requires low <= i < |buf|
    ensures Trim(if buf[i] == '\n' then "" else Kept(buf, low, i))
            == if i - low < USERNAMEMAXLEN - 1 then Trim([buf[i]]) else ""
  {
    TrimBlank();
    if buf[i] == '\n' {
      assert [buf[i]] == "\n";
    }
  }

  lemma UidNext(buf: string, i: nat, split: nat, split2: nat, username: string, accountName: string, uid: string,
                uid': string)
    requires buf != "" && i < |buf| && 0 < split && 0 < split2
    requires Scanned(buf, i, split, split2, username, accountName, uid)
    requires Trim(uid') == Trim(Field(buf[split2 + 1..i + 1])) && |uid'| <= |uid| + 1
    ensures Scanned(buf, i + 1, split, split2, username, accountName, uid')
  {
  }

  /** What the buffer of a field that begins at low is given for the i-th character. */
  function Kept(buf: string, low: nat, i: nat): string
    requires low <= i < |buf|
  {
    if i - low < USERNAMEMAXLEN - 1 then [buf[i]] else ""
  }

  /** The three branches of the loop, by the field that the scan is in. */
  method ScanUser(buf: string, i: nat, username: string) returns (split: nat, username': string)
    requires buf != "" && i < |buf| && |username| < USERNAMEMAXLEN && Scanned(buf, i, 0, 0, username, "", "")
    ensures |username'| < USERNAMEMAXLEN && Scanned(buf, i + 1, split, 0, username', "", "")
  {
    split, username' := 0, username;
    if buf[i] != ' ' {
      UserChar(buf, i, username);
      if i < USERNAMEMAXLEN - 1 {
        username' := username + [buf[i]];
      } else {
        assert username + "" == username;
      }
    } else {
      UserSpace(buf, i, username);
      split := i;
    }
  }

  method ScanAccount(buf: string, i: nat, split: nat, ghost username: string, accountName: string)
    returns (split2: nat, accountName': string)
    requires buf != "" && 0 < split < i < |buf| && |accountName| < USERNAMEMAXLEN
    requires Scanned(buf, i, split, 0, username, accountName, "")
    ensures |accountName'| < USERNAMEMAXLEN && Scanned(buf, i + 1, split, split2, username, accountName', "")
  {
    split2, accountName' := 0, accountName;
    if buf[i] != ' ' {
      AccountChar(buf, i, split, username, accountName);
      if i - split - 1 < USERNAMEMAXLEN - 1 {
        accountName' := accountName + [buf[i]];
      } else {
        assert accountName + "" == accountName;
      }
    } else {
      AccountSpace(buf, i, split, username, accountName);
      split2 := i;
    }
  }

  method ScanUid(buf: string, i: nat, ghost split: nat, split2: nat, ghost username: string, ghost accountName: string,
                 uid: string)
    returns (uid': string)
    requires buf != "" && 0 < split < split2 < i < |buf| && |uid| < USERNAMEMAXLEN
    requires Scanned(buf, i, split, split2, username, accountName, uid)
    ensures |uid'| < USERNAMEMAXLEN && Scanned(buf, i + 1, split, split2, username, accountName, uid')
  {
    uid' := uid;
    UidChar(buf, i, split, split2, username, accountName, uid);
    if buf[i] != '\n' && i - split2 - 1 < USERNAMEMAXLEN - 1 {
      uid' := uid + [buf[i]];
    } else {
      assert uid + "" == uid;
    }
  }

  lemma ScannedSplits(buf: string, i: nat, split: nat, split2: nat, username: string, accountName: string, uid: string)
    requires buf != "" && i <= |buf| && Scanned(buf, i, split, split2, username, accountName, uid)
    ensures split == 0 ==> split2 == 0 && accountName == "" && uid == ""
    ensures split2 == 0 ==> uid == ""
    ensures 0 < split ==> split < i
    ensures 0 < split2 ==> split < split2 < i
  {
  }

  /** The loop over a line, with three buffers of 64 characters of which none overflows. */
  method ScanLine(buf: string) returns (username: string, accountName: string, uid: string)
    requires buf != ""
    ensures |username| < USERNAMEMAXLEN && |accountName| < USERNAMEMAXLEN && |uid| < USERNAMEMAXLEN
    ensures Trim(username) == UserField(buf)
    ensures Trim(accountName) == AccountField(buf)
    ensures Trim(uid) == UidField(buf)
  {
    username, accountName, uid := "", "", "";
    var split, split2 := 0, 0;
    for i := 0 to |buf|
      invariant |username| < USERNAMEMAXLEN && |accountName| < USERNAMEMAXLEN && |uid| < USERNAMEMAXLEN
      invariant Scanned(buf, i, split, split2, username, accountName, uid)
    {
      ScannedSplits(buf, i, split, split2, username, accountName, uid);
      if split == 0 {
        split, username := ScanUser(buf, i, username);
      } else if split2 == 0 {
        split2, accountName := ScanAccount(buf, i, split, username, accountName);
      } else {
        uid := ScanUid(buf, i, split, split2, username, accountName, uid);
      }
    }
    ScannedAll(buf, split, split2, username, accountName, uid);
  }

  class DbUserMap {
    var userMap: map<string, Entry>

    constructor ()
      ensures userMap == map[]
    {
      userMap := map[];
    }

    /** One turn of the loop over the lines. */
    method ReadLine(buf: string, separateLve: bool)
      requires buf != ""
      modifies this
      ensures userMap == AddLine(old(userMap), buf, separateLve)
    {
      var username, accountName, uid := ScanLine(buf);
      username := TrimBuffer(username);
      uid := TrimBuffer(uid);
      accountName := TrimBuffer(accountName);
      if username == "" || accountName == "" {
        return;
      }
      if username !in userMap {
        var tmpUid := if separateLve then Atoi(uid) else BAD_LVE;
        if tmpUid >= 1 {
          userMap := userMap[username := Entry(accountName, tmpUid)];
        }
      }
    }

    /** content is what the map file holds, None when it cannot be opened. */
    method GetMapFile(content: Option<string>, separateLve: bool) returns (ok: bool)
      modifies this
      ensures ok == content.Some?
      ensures userMap == if content.None? then map[] else ParseFile(content.value, separateLve)
    {
      userMap := map[];
      if content.None? {
        return false;
      }
      var rest := content.value;
      while rest != ""
        invariant AddLines(userMap, Lines(rest), separateLve) == ParseFile(content.value, separateLve)
        decreases |rest|
      {
        var end := LineEnd(rest, 0);
        ReadLine(rest[..end], separateLve);
        assert Lines(rest)[1..] == Lines(rest[end..]);
        rest := rest[end..];
      }
      return true;
    }

    /** The walk over the whole map for one name. */
    function Find(u: string): (entry: Option<Entry>)
      reads this
    {
      if u in userMap then Some(userMap[u]) else None
    }

    function GetUid(u: string): (uid: int)
      reads this
    {
      var entry := Find(u);
      if entry.Some? then entry.value.uid else BAD_LVE
    }

    function GetAccount(u: string): (account: Option<string>)
      reads this
    {
      var entry := Find(u);
      if entry.Some? then Some(entry.value.account) else None
    }
  }

  // ----- The file the installer's scripts print -----

  datatype Row = Row(user: string, account: string, uid: nat) {
    /** A name as the scripts print it and the buffers take it, and a uid that atoi can read. */
    predicate Valid() {
      IsField(user) && IsField(account) && uid < 0x8000_0000
    }
  }

  predicate IsField(s: string) {
    1 <= |s| < USERNAMEMAXLEN && ' ' !in s && '\n' !in s
  }

  predicate AllValid(rows: seq<Row>) {
    forall i :: 0 <= i < |rows| ==> rows[i].Valid()
  }

  function PrintRow(r: Row): string {
    r.user + " " + r.account + " " + Print(r.uid) + "\n"
  }

  function PrintRows(rows: seq<Row>): string {
    if rows == [] then "" else PrintRow(rows[0]) + PrintRows(rows[1..])
  }

  /** Whether the reader takes the row at all. */
  predicate Usable(r: Row, separateLve: bool) {
    !separateLve || 1 <= r.uid
  }

  function EntryOf(r: Row, separateLve: bool): Entry {
    Entry(r.account, if separateLve then r.uid else BAD_LVE)
  }

  /** The first usable row of a user, None if it has none. */
  function FirstRow(rows: seq<Row>, user: string, separateLve: bool): Option<Row> {
    if rows == [] then None
    else if rows[0].user == user && Usable(rows[0], separateLve) then Some(rows[0])
    else FirstRow(rows[1..], user, separateLve)
  }

  lemma {:induction false} TrimClean(s: string)
    requires ' ' !in s && '\n' !in s
    ensures Trim(s) == s
  {
    if s != "" {
      assert s == [s[0]] + s[1..];
      TrimClean(s[1..]);
    }
  }

  lemma DigitsAreClean(s: string)
    requires AllDigits(s)
    ensures ' ' !in s && '\n' !in s
  {
  }

  lemma {:induction false} NextSpaceOf(s: string, from: nat, at: nat)
    requires from <= at < |s| && s[at] == ' '
    requires forall i :: from <= i < at ==> s[i] != ' '
    ensures NextSpace(s, from) == at
    decreases at - from
  {
    if from < at {
      NextSpaceOf(s, from + 1, at);
    }
  }

  lemma UidOfRow(r: Row)
    requires r.Valid()
    ensures Trim(Field(Print(r.uid) + "\n")) == Print(r.uid)
    ensures Atoi(Print(r.uid)) == r.uid
    ensures |Print(r.uid)| <= 10
  {
    var digits := Print(r.uid);
    assert Pow10(10) == 10_000_000_000 by { assert Pow10(5) == 100_000; }
    PrintLength(r.uid, 10);
    DigitsAreClean(digits);
    TrimClean(digits);
    TrimBlank();
    TrimConcat(digits, "\n");
    DecimalPrint(r.uid);
    assert digits + "" == digits;
    AtoiOfDigits(digits, "");
  }

  /** A line of two names, each followed by a space, and something after them. */
  lemma FieldsAt(line: string, user: string, account: string, tail: string)
    requires IsField(user) && IsField(account) && line == user + " " + account + " " + tail
    ensures UserField(line) == user && AccountField(line) == account && UidField(line) == Trim(Field(tail))
  {
    FieldPlaces(line, user, account, tail);
    FieldsFound(line, user, account, tail);
  }

  lemma FieldsFound(line: string, user: string, account: string, tail: string)
    requires IsField(user) && IsField(account) && |line| >= |user| + |account| + 2
    requires line[..|user|] == user && line[|user|] == ' '
    requires line[|user| + 1..|user| + 1 + |account|] == account && line[|user| + 1 + |account|] == ' '
    requires line[|user| + |account| + 2..] == tail
    ensures UserField(line) == user && AccountField(line) == account && UidField(line) == Trim(Field(tail))
  {
    UserEndsAt(line, user);
    AccountEndsAt(line, |user| + 1, account);
    WholeField(user);
    WholeField(account);
    FieldsByEnds(line, |user|, |user| + 1 + |account|);
    assert line[|user| + 1 + |account| + 1..] == tail;
  }

  /** A space in front of the line is no separator: the fields are the same. */
  lemma LeadingSpace(line: string, user: string, account: string, tail: string)
    requires IsField(user) && |user| < USERNAMEMAXLEN - 1 && IsField(account)
    requires line == " " + user + " " + account + " " + tail
    ensures UserField(line) == user && AccountField(line) == account && UidField(line) == Trim(Field(tail))
  {
    var n := |user| + 1;
    assert line == (" " + user) + " " + account + " " + tail;
    FieldPlaces(line, " " + user, account, tail);
    SpacedEnd(line, user);
    AccountEndsAt(line, n + 1, account);
    SpacedFields(line, n, n + 1 + |account|, user, account, tail);
  }

  lemma SpacedFields(line: string, n: nat, m: nat, user: string, account: string, tail: string)
    requires IsField(user) && |user| < USERNAMEMAXLEN - 1 && IsField(account)
    requires n < m < |line| && UserEnd(line) == n && NextSpace(line, n + 1) == m
    requires line[..n] == " " + user && line[n + 1..m] == account && line[m + 1..] == tail
    ensures UserField(line) == user && AccountField(line) == account && UidField(line) == Trim(Field(tail))
  {
    FieldsByEnds(line, n, m);
    WholeField(account);
    SpacedField(user);
  }

  /** A line without a second field enters nobody. */
  lemma OneField(m: map<string, Entry>, line: string, separateLve: bool)
    requires line != "" && ' ' !in line[1..]
    ensures AddLine(m, line, separateLve) == m
  {
    forall i | 1 <= i < |line| ensures line[i] != ' ' {
      assert line[i] == line[1..][i - 1];
    }
  }

  /** A line without a third field enters its user with uid 3, unless LVEs are separate. */
  lemma TwoFields(m: map<string, Entry>, user: string, account: string, separateLve: bool)
    requires IsField(user) && IsField(account)
    ensures AddLine(m, user + " " + account + "\n", separateLve)
            == if user in m || separateLve then m else m[user := Entry(account, BAD_LVE)]
  {
    var line := user + " " + account + "\n";
    var n := |user|;
    assert line[..n] == user && line[n] == ' ' && line[n + 1..|line|] == account + "\n";
    UserEndsAt(line, user);
    forall i | n + 1 <= i < |line| ensures line[i] != ' ' {
      assert line[i] == (account + "\n")[i - n - 1];
    }
    assert NextSpace(line, n + 1) == |line|;
    AccountByLineEnd(line, n);
    FullField(account);
    WholeField(user);
  }

  lemma AccountByLineEnd(line: string, n: nat)
    requires line != "" && n < |line| && UserEnd(line) == n && NextSpace(line, n + 1) == |line|
    ensures UserField(line) == Trim(Field(line[..n])) && AccountField(line) == Trim(Field(line[n + 1..|line|]))
    ensures UidField(line) == "" && Atoi(UidField(line)) == 0
  {
  }

  lemma FullField(account: string)
    requires IsField(account)
    ensures Trim(Field(account + "\n")) == account
  {
    TrimBlank();
    TrimClean(account);
    TrimConcat(account, "\n");
    if |account| == USERNAMEMAXLEN - 1 {
      assert (account + "\n")[..USERNAMEMAXLEN - 1] == account;
    }
  }

  /** A uid that is not positive enters nobody while LVEs are separate. */
  lemma NegativeUid(m: map<string, Entry>, user: string, account: string, digits: string)
    requires IsField(user) && IsField(account) && AllDigits(digits) && 1 <= |digits| <= 10
    ensures AddLine(m, user + " " + account + " " + ("-" + digits), true) == m
  {
    var tail := "-" + digits;
    FieldsAt(user + " " + account + " " + tail, user, account, tail);
    DigitsAreClean(digits);
    TrimClean(tail);
    AtoiOfSign('-', digits, "");
    assert ['-'] + (digits + "") == tail;
  }

  lemma SpacedEnd(line: string, user: string)
    requires IsField(user) && |user| + 1 < |line| && line[..|user| + 1] == " " + user && line[|user| + 1] == ' '
    ensures UserEnd(line) == |user| + 1
  {
    forall i | 1 <= i < |user| + 1 ensures line[i] != ' ' {
      assert line[i] == line[..|user| + 1][i] == user[i - 1];
    }
    NextSpaceOf(line, 1, |user| + 1);
  }

  lemma SpacedField(user: string)
    requires IsField(user) && |user| < USERNAMEMAXLEN - 1
    ensures Trim(Field(" " + user)) == user
  {
    TrimBlank();
    TrimConcat(" ", user);
    TrimClean(user);
  }

  lemma WholeField(s: string)
    requires IsField(s)
    ensures Trim(Field(s)) == s
  {
    TrimClean(s);
  }

  lemma FieldsByEnds(line: string, n: nat, m: nat)
    requires line != "" && n < m < |line| && UserEnd(line) == n && NextSpace(line, n + 1) == m
    ensures UserField(line) == Trim(Field(line[..n])) && AccountField(line) == Trim(Field(line[n + 1..m]))
    ensures UidField(line) == Trim(Field(line[m + 1..]))
  {
    AccountByEnds(line, n, m);
    UidByEnds(line, n, m);
  }

  lemma AccountByEnds(line: string, n: nat, m: nat)
    requires line != "" && n < m < |line| && UserEnd(line) == n && NextSpace(line, n + 1) == m
    ensures AccountEnd(line) == m && AccountField(line) == Trim(Field(line[n + 1..m]))
  {
  }

  lemma UidByEnds(line: string, n: nat, m: nat)
    requires line != "" && n < m < |line| && UserEnd(line) == n && AccountEnd(line) == m
    ensures UidField(line) == Trim(Field(line[m + 1..]))
  {
  }

  lemma FieldPlaces(line: string, user: string, account: string, tail: string)
    requires line == user + " " + account + " " + tail
    ensures var n, m := |user|, |account|;
            && |line| >= n + m + 2
            && line[..n] == user && line[n] == ' '
            && line[n + 1..n + 1 + m] == account && line[n + 1 + m] == ' '
            && line[n + m + 2..] == tail
  {
  }

  lemma AccountEndsAt(line: string, low: nat, account: string)
    requires low + |account| < |line| && line[low..low + |account|] == account && line[low + |account|] == ' '
    requires ' ' !in account
    ensures NextSpace(line, low) == low + |account|
  {
    forall i | low <= i < low + |account| ensures line[i] != ' ' {
      assert line[i] == account[i - low];
    }
    NextSpaceOf(line, low, low + |account|);
  }

  lemma UserEndsAt(line: string, user: string)
    requires IsField(user) && |user| < |line| && line[..|user|] == user && line[|user|] == ' '
    ensures UserEnd(line) == |user|
  {
    assert forall i :: 0 <= i < |user| ==> line[i] == user[i];
    NextSpaceOf(line, 1, |user|);
  }

  /** The fields that the scanner finds in a printed row are the row's. */
  lemma FieldsOfRow(r: Row)
    requires r.Valid()
    ensures UserField(PrintRow(r)) == r.user && AccountField(PrintRow(r)) == r.account
    ensures Atoi(UidField(PrintRow(r))) == r.uid
  {
    var tail := Print(r.uid) + "\n";
    assert PrintRow(r) == r.user + " " + r.account + " " + tail;
    FieldsAt(PrintRow(r), r.user, r.account, tail);
    UidOfRow(r);
  }

  lemma {:induction false} LineEndOf(line: string, rest: string, n: nat)
    requires n < |line| < BUFFER && line[|line| - 1] == '\n' && forall i :: 0 <= i < |line| - 1 ==> line[i] != '\n'
    ensures LineEnd(line + rest, n) == |line|
    decreases |line| - n
  {
    if n < |line| - 1 {
      LineEndOf(line, rest, n + 1);
    }
  }

  lemma NewlineEndsRow(r: Row)
    requires r.Valid()
    ensures |PrintRow(r)| < BUFFER - 1
    ensures var line := PrintRow(r);
            line[|line| - 1] == '\n' && forall i :: 0 <= i < |line| - 1 ==> line[i] != '\n'
  {
    UidOfRow(r);
    DigitsAreClean(Print(r.uid));
    var front := r.user + " " + r.account + " " + Print(r.uid);
    assert '\n' !in front;
    assert PrintRow(r) == front + "\n";
  }

  lemma RowIsOneLine(r: Row, rest: string)
    requires r.Valid()
    ensures Lines(PrintRow(r) + rest) == [PrintRow(r)] + Lines(rest)
  {
    var line := PrintRow(r);
    NewlineEndsRow(r);
    LineEndOf(line, rest, 0);
    assert (line + rest)[..|line|] == line && (line + rest)[|line|..] == rest;
  }

  /** What a printed row does to the map. */
  lemma AddRow(m: map<string, Entry>, r: Row, separateLve: bool)
    requires r.Valid()
    ensures AddLine(m, PrintRow(r), separateLve)
            == if r.user in m || !Usable(r, separateLve) then m else m[r.user := EntryOf(r, separateLve)]
  {
    FieldsOfRow(r);
  }

  lemma AddRows(m: map<string, Entry>, rows: seq<Row>, separateLve: bool)
    requires AllValid(rows) && rows != []
    ensures AddLines(m, Lines(PrintRows(rows)), separateLve)
            == AddLines(AddLine(m, PrintRow(rows[0]), separateLve), Lines(PrintRows(rows[1..])), separateLve)
  {
    RowIsOneLine(rows[0], PrintRows(rows[1..]));
    var lines := Lines(PrintRows(rows));
    assert lines[0] == PrintRow(rows[0]) && lines[1..] == Lines(PrintRows(rows[1..]));
  }

  lemma {:induction false} ParseRows(m: map<string, Entry>, rows: seq<Row>, separateLve: bool, user: string)
    requires AllValid(rows)
    ensures var parsed := AddLines(m, Lines(PrintRows(rows)), separateLve);
            if user in m then user in parsed && parsed[user] == m[user]
            else
              match FirstRow(rows, user, separateLve)
              case Some(r) => user in parsed && parsed[user] == EntryOf(r, separateLve)
              case None => user !in parsed
    decreases |rows|
  {
    if rows != [] {
      AddRows(m, rows, separateLve);
      AddRow(m, rows[0], separateLve);
      ParseRows(AddLine(m, PrintRow(rows[0]), separateLve), rows[1..], separateLve, user);
    }
  }

  /** Reading back a printed file gives every user its first row with a positive uid, or, when LVEs
      are not separate, its first row with uid 3; and no other user anything. */
  lemma RoundTrip(rows: seq<Row>, separateLve: bool, user: string)
    requires AllValid(rows)
    ensures var parsed := ParseFile(PrintRows(rows), separateLve);
            match FirstRow(rows, user, separateLve)
            case Some(r) => user in parsed && parsed[user] == EntryOf(r, separateLve)
            case None => user !in parsed
  {
    ParseRows(map[], rows, separateLve, user);
  }

  /** What "first" means: the row is in the list, usable, and every earlier row of the user is not. */
  lemma {:induction false} FirstRowMeaning(rows: seq<Row>, user: string, separateLve: bool)
    ensures match FirstRow(rows, user, separateLve)
            case Some(r) =>
              exists i :: 0 <= i < |rows| && rows[i] == r && r.user == user && Usable(r, separateLve)
                && forall j :: 0 <= j < i ==> !(rows[j].user == user && Usable(rows[j], separateLve))
            case None => forall j :: 0 <= j < |rows| ==> !(rows[j].user == user && Usable(rows[j], separateLve))
  {
    if rows != [] && !(rows[0].user == user && Usable(rows[0], separateLve)) {
      var rest := rows[1..];
      FirstRowMeaning(rest, user, separateLve);
      match FirstRow(rest, user, separateLve)
      case Some(r) =>
        var i :| 0 <= i < |rest| && rest[i] == r && r.user == user && Usable(r, separateLve)
          && forall j :: 0 <= j < i ==> !(rest[j].user == user && Usable(rest[j], separateLve));
        assert rows[i + 1] == r;
        assert forall j :: 0 <= j < i + 1 && j > 0 ==> rows[j] == rest[j - 1];
      case None =>
        assert forall j :: 0 < j < |rows| ==> rows[j] == rest[j - 1];
    } else if rows != [] {
      assert rows[0].user == user;
    }
  }

  /** The lookups after a printed file was read: the uid and the account of the user's first usable
      row; without one, uid 3 and no account. */
  lemma LookupsFindFirstRow(d: DbUserMap, rows: seq<Row>, separateLve: bool, user: string)
    requires AllValid(rows) && d.userMap == ParseFile(PrintRows(rows), separateLve)
    ensures match FirstRow(rows, user, separateLve)
            case Some(r) =>
              d.GetUid(user) == (if separateLve then r.uid else BAD_LVE) && d.GetAccount(user) == Some(r.account)
            case None => d.GetUid(user) == BAD_LVE && d.GetAccount(user) == None
  {
    RoundTrip(rows, separateLve, user);
  }

  /** A user listed once, with a positive uid, is found again with its account and its uid. */
  lemma OnlyRowIsFound(rows: seq<Row>, i: nat, separateLve: bool)
    requires AllValid(rows) && i < |rows| && 1 <= rows[i].uid
    requires forall j :: 0 <= j < |rows| && j != i ==> rows[j].user != rows[i].user
    ensures var parsed := ParseFile(PrintRows(rows), separateLve);
            rows[i].user in parsed && parsed[rows[i].user] == EntryOf(rows[i], separateLve)
  {
    RoundTrip(rows, separateLve, rows[i].user);
    FirstRowMeaning(rows, rows[i].user, separateLve);
  }
}

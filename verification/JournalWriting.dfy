/**
 The audit journal from writing to reading: the line `log_action` writes, what `_parse` reads from it and what the
 correction of the origins makes of it.
 */
module JournalWriting {
  import opened Wrappers
  import opened JournalRewrite
  import Text

  // ---------------------------------------------------------------- white space

  /** `s.split()` */
  function Words(s: string): seq<string> {
    NonEmpty(Text.Split(s, IsSpace))
  }

  function NonEmpty(pieces: seq<string>): seq<string> {
    if pieces == [] then []
    else if pieces[0] == "" then NonEmpty(pieces[1..])
    else [pieces[0]] + NonEmpty(pieces[1..])
  }

  /** `" ".join(words)` */
  function Spaced(words: seq<string>): string {
    if words == [] then ""
    else if |words| == 1 then words[0]
    else words[0] + " " + Spaced(words[1..])
  }

  function Flat(s: string): string {
    Spaced(Words(s))
  }

  predicate IsWord(w: string) {
    w != "" && Text.Free(w, IsSpace)
  }

  predicate AreWords(words: seq<string>) {
    forall i :: 0 <= i < |words| ==> IsWord(words[i])
  }

  lemma {:induction false} PiecesFree(s: string, i: nat)
    requires i < |Text.Split(s, IsSpace)|
    ensures Text.Free(Text.Split(s, IsSpace)[i], IsSpace)
  {
    if s != "" {
      var rest := Text.Split(s[1..], IsSpace);
      if IsSpace(s[0]) {
        if i > 0 { PiecesFree(s[1..], i - 1); }
      } else {
        PiecesFree(s[1..], i);
      }
    }
  }

  lemma {:induction false} NonEmptyAreWords(pieces: seq<string>)
    requires forall i :: 0 <= i < |pieces| ==> Text.Free(pieces[i], IsSpace)
    ensures AreWords(NonEmpty(pieces))
  {
    if pieces != [] {
      NonEmptyAreWords(pieces[1..]);
    }
  }

  lemma WordsAreWords(s: string)
    ensures AreWords(Words(s))
  {
    var pieces := Text.Split(s, IsSpace);
    forall i | 0 <= i < |pieces| ensures Text.Free(pieces[i], IsSpace) {
      PiecesFree(s, i);
    }
    NonEmptyAreWords(pieces);
  }

  /** Flattening keeps the words and nothing else: cutting the flat text gives the words of the original again. */
  lemma FlatKeepsWords(s: string)
    ensures Words(Flat(s)) == Words(s)
  {
    WordsAreWords(s);
    SpacedWords(Words(s));
  }

  lemma {:induction false} SpacedWords(words: seq<string>)
    requires AreWords(words)
    ensures Words(Spaced(words)) == words
  {
    if words == [] {
      assert NonEmpty([""]) == [];
    } else {
      var w, rest := words[0], words[1..];
      assert IsWord(w);
      Text.SplitFree(w, IsSpace);
      if rest == [] {
        assert NonEmpty([w]) == [w];
      } else {
        SpacedWords(rest);
        Text.SplitAt(w, ' ', Spaced(rest), IsSpace);
        assert Spaced(words) == w + [' '] + Spaced(rest);
        assert ([w] + Text.Split(Spaced(rest), IsSpace))[1..] == Text.Split(Spaced(rest), IsSpace);
      }
    }
  }

  predicate Bare(s: string) {
    s == "" || (!IsSpace(s[0]) && !IsSpace(s[|s| - 1]))
  }

  /** Every white space is a blank, and none stands at an end or behind another. */
  predicate IsFlat(s: string) {
    Bare(s) && forall i :: 0 <= i < |s| - 1 && IsSpace(s[i]) ==> s[i] == ' ' && !IsSpace(s[i + 1])
  }

  lemma FlatIsFlat(s: string)
    ensures IsFlat(Flat(s))
  {
    WordsAreWords(s);
    SpacedIsFlat(Words(s));
  }

  lemma {:induction false} SpacedIsFlat(words: seq<string>)
    requires AreWords(words)
    ensures IsFlat(Spaced(words))
    ensures words != [] ==> Spaced(words) != ""
  {
    if |words| > 1 {
      SpacedIsFlat(words[1..]);
      var w, t := words[0], Spaced(words[1..]);
      assert IsWord(w);
      var s := w + " " + t;
      assert s[0] == w[0] && s[|s| - 1] == t[|t| - 1];
      forall i | 0 <= i < |s| - 1 && IsSpace(s[i]) ensures s[i] == ' ' && !IsSpace(s[i + 1]) {
        if i > |w| {
          assert s[i] == t[i - |w| - 1] && s[i + 1] == t[i - |w|];
        }
      }
    } else if |words| == 1 {
      assert IsWord(words[0]);
    }
  }

  lemma BareStays(s: string)
    requires Bare(s)
    ensures Strip(s) == s
  {}

  /** Padding on the right is stripped again. */
  lemma {:induction false} PaddingGoes(s: string, n: nat)
    requires Bare(s)
    ensures StripRight(s + Blanks(n)) == s
    ensures Strip(s + Blanks(n)) == s
  {
    if n == 0 {
      assert s + Blanks(n) == s;
    } else {
      PaddingGoes(s, n - 1);
      assert (s + Blanks(n))[..|s| + n - 1] == s + Blanks(n - 1);
      assert s == "" ==> s + Blanks(n) == Blanks(n);
      if s == "" {
        BlanksGo(n);
      }
    }
  }

  lemma {:induction false} BlanksGo(n: nat)
    ensures StripLeft(Blanks(n)) == ""
  {
    if n > 0 {
      assert Blanks(n)[1..] == Blanks(n - 1);
      BlanksGo(n - 1);
    }
  }

  function Blanks(n: nat): (s: string)
    ensures |s| == n && forall i :: 0 <= i < n ==> s[i] == ' '
  {
    seq(n, i => ' ')
  }

  function Count(s: string, c: char): nat {
    multiset(s)[c]
  }

  /** Stripping loses white space only. */
  lemma StripKeeps(s: string, c: char)
    requires !IsSpace(c)
    ensures Count(Strip(s), c) == Count(s, c)
  {
    StripLeftKeeps(s, c);
    StripRightKeeps(StripLeft(s), c);
  }

  lemma {:induction false} StripLeftKeeps(s: string, c: char)
    requires !IsSpace(c)
    ensures Count(StripLeft(s), c) == Count(s, c)
  {
    if s != "" && IsSpace(s[0]) {
      StripLeftKeeps(s[1..], c);
      assert s == [s[0]] + s[1..];
    }
  }

  lemma {:induction false} StripRightKeeps(s: string, c: char)
    requires !IsSpace(c)
    ensures Count(StripRight(s), c) == Count(s, c)
  {
    if s != "" && IsSpace(s[|s| - 1]) {
      var n := |s| - 1;
      StripRightKeeps(s[..n], c);
      assert s == s[..n] + [s[n]];
    }
  }

  /** Stripped: what is left begins and ends with a character that is no white space, and is a stretch of the text. */
  lemma StripMeans(s: string)
    ensures Bare(Strip(s))
    ensures exists i, j :: StrippedTo(s, i, j) && Strip(s) == s[i..j]
  {
    var t := StripLeft(s);
    StripLeftMeans(s);
    StripRightMeans(t);
    BothEnds(s, t, StripRight(t));
  }

  lemma BothEnds(s: string, t: string, r: string)
    requires |t| <= |s| && t == s[|s| - |t|..] && r <= t
    requires forall k :: 0 <= k < |s| - |t| ==> IsSpace(s[k])
    requires forall k :: |r| <= k < |t| ==> IsSpace(t[k])
    ensures exists i, j :: StrippedTo(s, i, j) && r == s[i..j]
  {
    var i := |s| - |t|;
    var j := i + |r|;
    forall k | j <= k < |s| ensures IsSpace(s[k]) {
      assert s[k] == t[k - i];
    }
    assert StrippedTo(s, i, j) && r == s[i..j];
  }

  predicate StrippedTo(s: string, i: int, j: int) {
    && 0 <= i <= j <= |s|
    && (forall k :: 0 <= k < i ==> IsSpace(s[k]))
    && (forall k :: j <= k < |s| ==> IsSpace(s[k]))
  }

  lemma {:induction false} StripLeftMeans(s: string)
    ensures var t := StripLeft(s);
            && |t| <= |s| && t == s[|s| - |t|..]
            && (t != "" ==> !IsSpace(t[0]))
            && (forall k :: 0 <= k < |s| - |t| ==> IsSpace(s[k]))
  {
    if s != "" && IsSpace(s[0]) {
      StripLeftMeans(s[1..]);
      assert forall k :: 0 < k < |s| ==> s[k] == s[1..][k - 1];
    }
  }

  lemma {:induction false} StripRightMeans(s: string)
    ensures var t := StripRight(s);
            && t <= s
            && (t != "" ==> !IsSpace(t[|t| - 1]))
            && (forall k :: |t| <= k < |s| ==> IsSpace(s[k]))
  {
    if s != "" && IsSpace(s[|s| - 1]) {
      StripRightMeans(s[..|s| - 1]);
    }
  }

  // ---------------------------------------------------------------- writing

  /** What `log_action` is given, with the time it reads. */
  datatype Record = Record(
    ts: string, action: string, ok: bool, mac: Option<string>, name: string, mode: Option<string>,
    source: Option<string>, user: Option<string>, message: string)

  /** `value or "-"` */
  function OrDash(value: Option<string>): string {
    if value.None? || value.value == "" then "-" else value.value
  }

  /** `{s:<n}` */
  function Pad(s: string, n: nat): string {
    s + Blanks(if |s| < n then n - |s| else 0)
  }

  /** `replace("|", "/")` */
  function Slashed(s: string): string {
    seq(|s|, i requires 0 <= i < |s| => if s[i] == '|' then '/' else s[i])
  }

  function Cleaned(value: Option<string>): string {
    Slashed(Flat(OrDash(value)))
  }

  function Agent(user: Option<string>): string {
    OrDash(Some(Cleaned(user)))
  }

  function OldFields(r: Record): (fields: seq<string>)
    ensures |fields| == 8
  {
    [r.ts, Pad(r.action, 9), "ok=" + Pad(if r.ok then "True" else "False", 5), Pad(OrDash(r.mac), 17), r.name,
     "mode=" + OrDash(r.mode), "source=" + Cleaned(r.source), Flat(r.message)]
  }

  function Fields(r: Record): (fields: seq<string>)
    ensures |fields| == 9
  {
    OldFields(r)[..7] + ["user=" + Agent(r.user), Flat(r.message)]
  }

  /** `_line` */
  function LineOf(r: Record): string {
    Join(Fields(r)) + "\n"
  }

  /** A line from before the agent was recorded. */
  function OldLineOf(r: Record): string {
    Join(OldFields(r)) + "\n"
  }

  /** A time stamp, an action, a hardware address and a mode: no pipe, and no white space around. */
  predicate Plain(s: string) {
    '|' !in s && Bare(s)
  }

  predicate PlainColumns(r: Record) {
    Plain(r.ts) && Plain(r.action) && Plain(OrDash(r.mac)) && Plain(OrDash(r.mode))
  }

  // ---------------------------------------------------------------- reading

  /** What was recorded, as the reader tells it. */
  predicate SaysWhatWasDone(e: Entry, r: Record) {
    && e.timestamp == r.ts && e.action == r.action && e.ok == r.ok
    && e.mac == (if r.mac in {None, Some(""), Some("-")} then None else r.mac)
    && e.name == Strip(r.name)
    && e.mode == OrDash(r.mode) && e.source == Cleaned(r.source)
    && e.message == Flat(r.message)
  }

  predicate ReadsAs(line: string, r: Record, user: Option<string>) {
    var e := Parse(line);
    e.Some? && SaysWhatWasDone(e.value, r) && e.value.user == user
  }

  lemma CleanedIsPlain(value: Option<string>)
    ensures Plain(Cleaned(value))
    ensures IsFlat(Cleaned(value))
  {
    FlatIsFlat(OrDash(value));
    SlashedStaysFlat(Flat(OrDash(value)));
  }

  lemma SlashedStaysFlat(s: string)
    requires IsFlat(s)
    ensures Plain(Slashed(s)) && IsFlat(Slashed(s))
  {}

  lemma {:induction false} ClosedOneByOne(parts: seq<string>)
    requires parts != []
    ensures AllClosed(parts) <==> forall i :: 0 <= i < |parts| - 1 ==> Closed(parts[i])
  {
    if |parts| > 1 {
      ClosedOneByOne(parts[1..]);
      assert forall i :: 0 <= i < |parts| - 2 ==> parts[1..][i] == parts[i + 1];
    }
  }

  /** Only the client's name can be taken for more than one column. */
  lemma ColumnsClosed(r: Record, i: nat)
    requires PlainColumns(r) && i < 8 && i != 4
    ensures Closed(Fields(r)[i])
  {
    CleanedIsPlain(r.source);
    CleanedIsPlain(r.user);
    NoPipeIsClosed(Fields(r)[i]);
  }

  lemma FieldsClosed(r: Record)
    requires PlainColumns(r)
    ensures AllClosed(Fields(r)) <==> Closed(r.name)
    ensures AllClosed(OldFields(r)) <==> Closed(r.name)
  {
    forall i: nat | i < 8 && i != 4 ensures Closed(Fields(r)[i]) {
      ColumnsClosed(r, i);
    }
    ClosedOneByOne(Fields(r));
    ClosedOneByOne(OldFields(r));
    assert forall i :: 0 <= i < 7 ==> OldFields(r)[i] == Fields(r)[i];
    assert Fields(r)[4] == r.name;
  }

  lemma ChopJoin(parts: seq<string>, message: string)
    requires |parts| > 1 && parts[|parts| - 1] == Flat(message)
    ensures Chop(Join(parts) + "\n") == Join(parts)
  {
    FlatIsFlat(message);
    LastChar(parts);
    var s := Join(parts);
    assert (s + "\n")[..|s|] == s;
    assert Chop(s) == s;
  }

  /** The columns in front, as the reader takes them. */
  predicate ColumnsSay(parts: seq<string>, r: Record)
    requires |parts| >= 7
  {
    && Strip(parts[0]) == r.ts && Strip(parts[1]) == r.action
    && (Strip(WithoutPrefix(Strip(parts[2]), "ok=")) == "True" <==> r.ok)
    && Strip(parts[3]) == OrDash(r.mac) && Strip(parts[4]) == Strip(r.name)
    && WithoutPrefix(Strip(parts[5]), "mode=") == OrDash(r.mode)
    && Strip(parts[6]) == "source=" + Cleaned(r.source)
  }

  lemma ColumnsRead(r: Record)
    requires PlainColumns(r)
    ensures ColumnsSay(OldFields(r), r)
  {
    BareStays(r.ts);
    PadRead(r.action, 9);
    PadRead(OrDash(r.mac), 17);
    ValuesRead(r);
  }

  lemma ValuesRead(r: Record)
    requires PlainColumns(r)
    ensures var parts := OldFields(r);
            && (Strip(WithoutPrefix(Strip(parts[2]), "ok=")) == "True" <==> r.ok)
            && WithoutPrefix(Strip(parts[5]), "mode=") == OrDash(r.mode)
            && Strip(parts[6]) == "source=" + Cleaned(r.source)
  {
    OkRead(r.ok);
    ValueRead("mode=", OrDash(r.mode));
    CleanedIsPlain(r.source);
    ValueRead("source=", Cleaned(r.source));
  }

  lemma PadRead(s: string, n: nat)
    requires Bare(s)
    ensures Strip(Pad(s, n)) == s
  {
    PaddingGoes(s, if |s| < n then n - |s| else 0);
  }

  lemma ValueRead(prefix: string, s: string)
    requires prefix != "" && Bare(prefix) && Bare(s)
    ensures Strip(prefix + s) == prefix + s && WithoutPrefix(prefix + s, prefix) == s
  {
    BareStays(prefix + s);
  }

  lemma ColumnsTellAll(line: string, parts: seq<string>, r: Record, user: Option<string>)
    requires SplitMax(Chop(line), 8) == parts && |parts| >= 8 && ColumnsSay(parts, r)
    ensures ReadsAs(line, r, user) <==> UserOf(parts[7..]) == user && MessageOf(parts[7..]) == Flat(r.message)
  {
    EntryTellsAll(parts, r);
    assert Parse(line) == Some(EntryOf(parts));
  }

  lemma EntryTellsAll(parts: seq<string>, r: Record)
    requires |parts| >= 8 && ColumnsSay(parts, r)
    ensures SaysWhatWasDone(EntryOf(parts), r) <==> MessageOf(parts[7..]) == Flat(r.message)
    ensures EntryOf(parts).user == UserOf(parts[7..])
  {
    CleanedIsPlain(r.source);
    ValueRead("source=", Cleaned(r.source));
  }

  lemma OkRead(ok: bool)
    ensures var part := "ok=" + Pad(if ok then "True" else "False", 5);
            Strip(WithoutPrefix(Strip(part), "ok=")) == "True" <==> ok
  {
    var word := if ok then "True" else "False";
    var n: nat := if ok then 1 else 0;
    assert "ok=" + Pad(word, 5) == "ok=" + word + Blanks(n);
    PaddingGoes("ok=" + word, n);
    assert WithoutPrefix("ok=" + word, "ok=") == word;
    BareStays(word);
  }

  /** A name that is not closed is cut in front of one of its pipes. */
  lemma NameIsCut(r: Record, rest: string, n: nat)
    requires !Closed(r.name) && n > 0
    ensures Strip(SplitMax(r.name + SEP + rest, n)[0]) != Strip(r.name)
  {
    var name, s, t := r.name, r.name + SEP, r.name + SEP + rest;
    assert At(s, |name|);
    var i := Find(s).value;
    FoundFirst(s, t, i);
    assert t[..i] == name[..i];
    assert name == name[..i] + name[i..] && name[i..][1] == '|';
    assert Count(name[i..], '|') > 0;
    StripKeeps(name, '|');
    StripKeeps(name[..i], '|');
  }

  lemma FoundFirst(s: string, t: string, i: nat)
    requires s <= t && Find(s) == Some(i)
    ensures Find(t) == Some(i)
  {
    assert At(t, i);
    forall j: nat | j < i ensures !At(t, j) {
      assert !At(s, j);
    }
  }

  predicate EachClosed(fields: seq<string>) {
    forall i :: 0 <= i < |fields| ==> Closed(fields[i])
  }

  lemma ClosedFront(parts: seq<string>, k: nat, n: nat)
    requires k < |parts| && k <= n && EachClosed(parts[..k])
    ensures SplitMax(Join(parts), n) == parts[..k] + SplitMax(Join(parts[k..]), n - k)
  {
    var front, last := parts[..k], Join(parts[k..]);
    var short := front + [last];
    JoinInTwo(parts, k);
    ClosedOneByOne(short);
    assert forall i :: 0 <= i < k ==> short[i] == front[i];
    ClosedFieldsSplitBack(short, k);
    SplitFurther(Join(parts), k, n);
    assert short[..k] == front && short[k] == last;
  }

  lemma OpenNameMisread(r: Record, fields: seq<string>)
    requires !Closed(r.name) && |fields| > 5 && fields[4] == r.name && EachClosed(fields[..4])
    requires Chop(Join(fields) + "\n") == Join(fields)
    ensures Parse(Join(fields) + "\n").Some? ==> Parse(Join(fields) + "\n").value.name != Strip(r.name)
  {
    ClosedFront(fields, 4, 8);
    NameIsCut(r, Join(fields[5..]), 4);
    assert fields[4..][1..] == fields[5..];
    var parts, tail := SplitMax(Join(fields), 8), SplitMax(Join(fields[4..]), 4);
    assert parts[4] == tail[0];
    assert |parts| >= 8 ==> EntryOf(parts).name == Strip(tail[0]);
  }

  lemma FrontClosed(r: Record)
    requires PlainColumns(r)
    ensures EachClosed(Fields(r)[..4]) && Fields(r)[..4] == OldFields(r)[..4]
  {
    forall i: nat | i < 4 ensures Closed(Fields(r)[i]) {
      ColumnsClosed(r, i);
    }
  }

  /** The agent as the reader tells it: none and "-" are the same. */
  function AgentRead(user: Option<string>): Option<string> {
    if Cleaned(user) in {"", "-"} then None else Some(Cleaned(user))
  }

  lemma AgentReads(r: Record)
    ensures UserOf(Fields(r)[7..]) == AgentRead(r.user)
    ensures MessageOf(Fields(r)[7..]) == Flat(r.message)
  {
    var tail := Fields(r)[7..];
    CleanedIsPlain(r.user);
    assert tail == ["user=" + Agent(r.user), Flat(r.message)];
    assert ("user=" + Agent(r.user))[5..] == Agent(r.user);
    BareStays(Agent(r.user));
    FlatIsFlat(r.message);
    BareStays(Flat(r.message));
  }

  /**
   What is written is read back, a message that contains separators included, exactly when the client's name cannot
   be taken for more than one column: the name is the one free text that is written as it comes.
   */
  lemma WrittenLineReadsBack(r: Record)
    requires PlainColumns(r)
    ensures ReadsAs(LineOf(r), r, AgentRead(r.user)) <==> Closed(r.name)
  {
    var fields := Fields(r);
    ChopJoin(fields, r.message);
    FieldsClosed(r);
    if Closed(r.name) {
      ClosedFieldsSplitBack(fields, 8);
      ColumnsRead(r);
      AgentReads(r);
      ColumnsTellAll(LineOf(r), fields, r, AgentRead(r.user));
    } else {
      FrontClosed(r);
      OpenNameMisread(r, fields);
    }
  }

  /** A client's name that holds a separator is misread, whatever else is recorded. */
  lemma SeparatorInNameIsMisread(r: Record, before: string, after: string)
    requires PlainColumns(r) && r.name == before + " | " + after
    ensures !ReadsAs(LineOf(r), r, AgentRead(r.user))
  {
    assert At(r.name, |before|);
    ClosedExactly(r.name);
    WrittenLineReadsBack(r);
  }

  /** The message begins like an agent column. */
  predicate LooksLikeAgent(message: string) {
    var i := Find(message);
    i.Some? && "user=" <= message[..i.value] && '|' !in message[..i.value]
  }

  /** A line without the agent column is read back exactly when moreover its message does not begin like one. */
  lemma OldLineReadsBack(r: Record)
    requires PlainColumns(r)
    ensures ReadsAs(OldLineOf(r), r, None) <==> Closed(r.name) && !LooksLikeAgent(Flat(r.message))
  {
    var fields, m := OldFields(r), Flat(r.message);
    ChopJoin(fields, r.message);
    FieldsClosed(r);
    if Closed(r.name) {
      OldPieces(r);
      ColumnsRead(r);
      FlatIsFlat(r.message);
      OldMessage(m);
      var parts := fields[..7] + SplitMax(m, 1);
      assert parts[7..] == SplitMax(m, 1);
      ColumnsTellAll(OldLineOf(r), parts, r, None);
    } else {
      FrontClosed(r);
      OpenNameMisread(r, fields);
    }
  }

  lemma OldPieces(r: Record)
    requires PlainColumns(r) && Closed(r.name)
    ensures SplitMax(Join(OldFields(r)), 8) == OldFields(r)[..7] + SplitMax(Flat(r.message), 1)
  {
    var fields := OldFields(r);
    FieldsClosed(r);
    ClosedOneByOne(fields);
    ClosedFront(fields, 7, 8);
    assert fields[7..] == [Flat(r.message)];
  }

  lemma OldMessage(m: string)
    requires Bare(m)
    ensures var tail := SplitMax(m, 1);
            (UserOf(tail) == None && MessageOf(tail) == m) <==> !LooksLikeAgent(m)
  {
    var tail := SplitMax(m, 1);
    JoinUndoesSplit(m, 1);
    BareStays(m);
    if Find(m).Some? {
      var i := Find(m).value;
      assert tail == [m[..i], m[i + 3..]];
      assert "user=" <= m[..i] ==> ('|' in m[..i] <==> '|' in m[..i][5..]);
      if LooksLikeAgent(m) {
        StripMeans(m[i + 3..]);
        assert |Strip(m[i + 3..])| < |m|;
      }
    }
  }

  // ---------------------------------------------------------------- correcting

  /** A cut is ordered, its origin is the default, the client's reason is known and tells another origin. */
  predicate IsWrong(parts: seq<string>, reasons: map<string, string>, sourceOf: string -> string) {
    && |parts| == 8 && Strip(parts[1]) == "BLOCK" && Strip(parts[6]) == "source=payment"
    && Lower(Strip(parts[3])) in reasons && sourceOf(reasons[Lower(Strip(parts[3]))]) != "payment"
  }

  /** The edit of a line, given its pieces. */
  predicate IsCorrected(line: string, parts: seq<string>, edited: string, source: Option<string>,
                        reasons: map<string, string>, sourceOf: string -> string)
  {
    if IsWrong(parts, reasons, sourceOf)
    then && source == Some(sourceOf(reasons[Lower(Strip(parts[3]))]))
         && edited == Join(parts[..6] + ["source=" + source.value] + parts[7..]) + "\n"
    else source == None && edited == line
  }

  /**
   Exactly the wrong lines are rewritten, each with the origin its client's reason tells in the place of the old one;
   every other line stays as it is.
   */
  lemma WhichLinesAreRewritten(line: string, reasons: map<string, string>, sourceOf: string -> string)
    ensures var (edited, source) := Rewrite(line, reasons, sourceOf);
            IsCorrected(line, SplitMax(Chop(line), 7), edited, source, reasons, sourceOf)
  {
    var parts := SplitMax(Chop(line), 7);
    if |parts| == 8 {
      WhichOrigin(parts, reasons, sourceOf);
      var field := "source=" + Rewrite(line, reasons, sourceOf).1.GetOr("");
      assert parts[6 := field] == parts[..6] + [field] + parts[7..];
    }
  }

  lemma WhichOrigin(parts: seq<string>, reasons: map<string, string>, sourceOf: string -> string)
    requires |parts| == 8
    ensures NewSource(parts, reasons, sourceOf) ==
            if IsWrong(parts, reasons, sourceOf) then Some(sourceOf(reasons[Lower(Strip(parts[3]))])) else None
  {
    assert "source=" + DEFAULT_SOURCE == "source=payment";
  }

  const UPPER := "ABCDEFGHIJKLMNOPQRSTUVWXYZ"
  const LOWER := "abcdefghijklmnopqrstuvwxyz"

  lemma LowerMeans(s: string, i: nat, k: nat)
    requires i < |s|
    ensures |Lower(s)| == |s|
    ensures k < 26 && s[i] == UPPER[k] ==> Lower(s)[i] == LOWER[k]
    ensures s[i] !in UPPER ==> Lower(s)[i] == s[i]
  {
    if 'A' <= s[i] <= 'Z' {
      assert UPPER[s[i] as int - 65] == s[i];
    }
  }

  lemma {:induction false} JoinInTwo(parts: seq<string>, k: nat)
    requires k < |parts|
    ensures Join(parts[..k] + [Join(parts[k..])]) == Join(parts)
  {
    var short := parts[..k] + [Join(parts[k..])];
    if k == 0 {
      assert parts[k..] == parts;
    } else {
      JoinInTwo(parts[1..], k - 1);
      assert parts[1..][k - 1..] == parts[k..];
      assert short[1..] == parts[1..][..k - 1] + [Join(parts[1..][k - 1..])];
    }
  }

  /** The reason on file for the client of a record. */
  function ReasonOf(r: Record, reasons: map<string, string>): Option<string> {
    var mac := Lower(OrDash(r.mac));
    if mac in reasons then Some(reasons[mac]) else None
  }

  predicate Misattributed(r: Record, reasons: map<string, string>, sourceOf: string -> string) {
    var reason := ReasonOf(r, reasons);
    && r.action == "BLOCK" && Cleaned(r.source) == "payment"
    && reason.Some? && sourceOf(reason.value) != "payment"
  }

  function Pieces(r: Record): (parts: seq<string>)
    ensures |parts| == 8
  {
    Fields(r)[..7] + [Join(Fields(r)[7..])]
  }

  lemma SevenPieces(r: Record)
    requires PlainColumns(r) && Closed(r.name)
    ensures SplitMax(Chop(LineOf(r)), 7) == Pieces(r) && ColumnsSay(Pieces(r), r)
  {
    ChopJoin(Fields(r), r.message);
    FieldsClosed(r);
    ClosedOneByOne(Fields(r));
    ClosedFront(Fields(r), 7, 7);
    ColumnsRead(r);
    assert forall i :: 0 <= i < 7 ==> Pieces(r)[i] == OldFields(r)[i];
  }

  lemma WrongRecord(parts: seq<string>, r: Record, reasons: map<string, string>, sourceOf: string -> string)
    requires |parts| == 8 && ColumnsSay(parts, r)
    ensures IsWrong(parts, reasons, sourceOf) <==> Misattributed(r, reasons, sourceOf)
  {
    var source := Cleaned(r.source);
    assert ("source=" + source)[7..] == source && "source=payment"[7..] == "payment";
  }

  lemma EditedLine(r: Record, source: string)
    requires Cleaned(Some(source)) == source
    ensures Join(Pieces(r)[..6] + ["source=" + source] + Pieces(r)[7..]) + "\n" == LineOf(r.(source := Some(source)))
  {
    var known := r.(source := Some(source));
    assert Fields(known)[7..] == Fields(r)[7..];
    assert Pieces(r)[..6] + ["source=" + source] + Pieces(r)[7..] == Pieces(known);
    JoinInTwo(Fields(known), 7);
  }

  /**
   Correcting a written line gives the line that would have been written had the origin been known: the wrong ones
   get the origin their reason tells, letter by letter, and the right ones stay as they are.
   */
  lemma CorrectedAsIfKnown(r: Record, reasons: map<string, string>, sourceOf: string -> string)
    requires PlainColumns(r) && Closed(r.name)
    requires forall s :: s in reasons.Values ==> Cleaned(Some(sourceOf(s))) == sourceOf(s)
    ensures Rewrite(LineOf(r), reasons, sourceOf) ==
            if !Misattributed(r, reasons, sourceOf) then (LineOf(r), None)
            else
              var source := Some(sourceOf(ReasonOf(r, reasons).value));
              (LineOf(r.(source := source)), source)
  {
    SevenPieces(r);
    WhichLinesAreRewritten(LineOf(r), reasons, sourceOf);
    WrongRecord(Pieces(r), r, reasons, sourceOf);
    if Misattributed(r, reasons, sourceOf) {
      EditedLine(r, sourceOf(ReasonOf(r, reasons).value));
    }
  }
}

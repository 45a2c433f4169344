/**
 `backfill_journal_source`: editing one field of a journal line in place, and what the journal's own
 reader sees of it afterwards.
 */
module JournalRewrite {
  import opened Wrappers

  // ---------------------------------------------------------------- split(" | ", n) and join

  const SEP := " | "

  predicate At(s: string, i: nat) {
    i + 3 <= |s| && s[i] == ' ' && s[i + 1] == '|' && s[i + 2] == ' '
  }

  /** The first separator. */
  function Find(s: string): (i: Option<nat>)
    ensures i.Some? ==> At(s, i.value) && forall j :: 0 <= j < i.value ==> !At(s, j)
    ensures i.None? ==> forall j: nat :: !At(s, j)
  {
    if At(s, 0) then Some(0)
    else if s == "" then None
    else
      assert forall j: nat :: At(s, j + 1) <==> At(s[1..], j);
      match Find(s[1..])
      case None => (assert forall j: nat :: At(s, j) ==> j > 0 && At(s[1..], j - 1); None)
      case Some(i) => (assert forall j: nat :: At(s, j) ==> j > 0 && At(s[1..], j - 1); Some(i + 1))
  }

  function SplitMax(s: string, n: nat): (parts: seq<string>)
    ensures 1 <= |parts| <= n + 1
    decreases |s|
  {
    if n == 0 || Find(s).None? then [s]
    else [s[..Find(s).value]] + SplitMax(s[Find(s).value + 3..], n - 1)
  }

  function Join(parts: seq<string>): string
    requires parts != []
  {
    if |parts| == 1 then parts[0] else parts[0] + SEP + Join(parts[1..])
  }

  lemma JoinHead(s: string, i: nat, rest: seq<string>)
    requires rest != [] && At(s, i) && Join(rest) == s[i + 3..]
    ensures Join([s[..i]] + rest) == s
  {
    assert ([s[..i]] + rest)[1..] == rest;
    assert s[..i] + SEP + s[i + 3..] == s;
  }

  lemma {:induction false} JoinUndoesSplit(s: string, n: nat)
    ensures Join(SplitMax(s, n)) == s
    decreases |s|
  {
    if n > 0 && Find(s).Some? {
      var i := Find(s).value;
      JoinUndoesSplit(s[i + 3..], n - 1);
      JoinHead(s, i, SplitMax(s[i + 3..], n - 1));
    }
  }

  /** The first separator after `p` is the one written there, whatever comes next. */
  predicate Closed(p: string) {
    Find(p + SEP) == Some(|p|)
  }

  lemma ClosedFinds(p: string, rest: string)
    requires Closed(p)
    ensures Find(p + SEP + rest) == Some(|p|)
  {
    var s, t := p + SEP, p + SEP + rest;
    assert At(t, |p|);
    forall j: nat | j < |p| ensures !At(t, j) {
      assert !At(s, j);
    }
  }

  /** A field is closed exactly when it holds no separator and does not end in the start of one. */
  lemma ClosedExactly(p: string)
    ensures Closed(p) <==> Find(p).None? && !HalfSeparator(p)
  {
    var s := p + SEP;
    assert At(s, |p|);
    forall j: nat | j < |p| ensures At(s, j) <==> At(p, j) || (j + 2 == |p| && HalfSeparator(p)) {}
    if Find(p).Some? {
      assert At(s, Find(p).value);
    } else if HalfSeparator(p) {
      assert At(s, |p| - 2);
    } else {
      assert forall j: nat | j < |p| :: !At(s, j);
    }
  }

  predicate HalfSeparator(p: string) {
    |p| >= 2 && p[|p| - 2] == ' ' && p[|p| - 1] == '|'
  }

  lemma NoPipeIsClosed(p: string)
    requires '|' !in p
    ensures Closed(p)
  {
    ClosedExactly(p);
    if |p| >= 2 {
      assert p[|p| - 1] in p;
    }
    forall j: nat ensures !At(p, j) {
      if j + 3 <= |p| {
        assert p[j + 1] in p;
      }
    }
  }

  /** All fields but the last are closed. */
  predicate AllClosed(parts: seq<string>)
    requires parts != []
  {
    |parts| == 1 || (Closed(parts[0]) && AllClosed(parts[1..]))
  }

  lemma {:induction false} SplitPartsClosed(s: string, n: nat)
    ensures AllClosed(SplitMax(s, n))
    decreases |s|
  {
    if n == 0 || Find(s).None? {
    } else {
      var i := Find(s).value;
      SplitPartsClosed(s[i + 3..], n - 1);
      HeadClosed(s);
      assert ([s[..i]] + SplitMax(s[i + 3..], n - 1))[1..] == SplitMax(s[i + 3..], n - 1);
    }
  }

  lemma HeadClosed(s: string)
    requires Find(s).Some?
    ensures Closed(s[..Find(s).value])
  {
    var i := Find(s).value;
    var p := s[..i];
    assert At(p + SEP, i);
    forall j: nat | j < i ensures !At(p + SEP, j) {
      assert !At(s, j);
    }
  }

  lemma SplitHead(p: string, t: string, n: nat)
    requires Closed(p)
    ensures SplitMax(p + SEP + t, n + 1) == [p] + SplitMax(t, n)
  {
    var s := p + SEP + t;
    ClosedFinds(p, t);
    assert s[..|p|] == p && s[|p| + 3..] == t;
  }

  lemma {:induction false} ClosedFieldsSplitBack(parts: seq<string>, n: nat)
    requires |parts| == n + 1 && AllClosed(parts)
    ensures SplitMax(Join(parts), n) == parts
  {
    if n > 0 {
      var p, rest := parts[0], parts[1..];
      assert Closed(p) && AllClosed(rest) && parts == [p] + rest;
      var t := Join(rest);
      assert Join(parts) == p + SEP + t;
      ClosedFieldsSplitBack(rest, n - 1);
      SplitHead(p, t, n - 1);
    }
  }

  /** Joined fields split back into themselves exactly when all but the last are closed. */
  lemma SplitUndoesJoin(parts: seq<string>)
    requires parts != []
    ensures SplitMax(Join(parts), |parts| - 1) == parts <==> AllClosed(parts)
  {
    SplitPartsClosed(Join(parts), |parts| - 1);
    if AllClosed(parts) {
      ClosedFieldsSplitBack(parts, |parts| - 1);
    }
  }

  lemma {:induction false} OneFieldChanged(parts: seq<string>, k: nat, x: string)
    requires k < |parts| - 1 && AllClosed(parts)
    ensures AllClosed(parts[k := x]) <==> Closed(x)
    decreases |parts|
  {
    if k == 0 {
      assert parts[k := x][1..] == parts[1..];
    } else {
      OneFieldChanged(parts[1..], k - 1, x);
      assert parts[k := x][1..] == parts[1..][k - 1 := x];
    }
  }

  // ---------------------------------------------------------------- the edit

  /** What `str.strip` and `str.split` take for white space. */
  predicate IsSpace(c: char) {
    var n := c as int;
    || 9 <= n <= 13 || 28 <= n <= 32 || n == 0x85 || n == 0xA0 || n == 0x1680 || 0x2000 <= n <= 0x200A
    || n == 0x2028 || n == 0x2029 || n == 0x202F || n == 0x205F || n == 0x3000
  }

  function StripLeft(s: string): string {
    if s != "" && IsSpace(s[0]) then StripLeft(s[1..]) else s
  }

  function StripRight(s: string): string {
    if s != "" && IsSpace(s[|s| - 1]) then StripRight(s[..|s| - 1]) else s
  }

  function Strip(s: string): string {
    StripRight(StripLeft(s))
  }

  /** `rstrip("\n")` */
  function Chop(line: string): (s: string)
    ensures s == "" || s[|s| - 1] != '\n'
  {
    if line != "" && line[|line| - 1] == '\n' then Chop(line[..|line| - 1]) else line
  }

  function Lower(s: string): string {
    seq(|s|, i requires 0 <= i < |s| => if 'A' <= s[i] <= 'Z' then (s[i] as int + 32) as char else s[i])
  }

  const DEFAULT_SOURCE := "payment"

  /** The origin of a line to correct: `reasons` gives a reason by MAC, `sourceOf` the signature found in it. */
  function NewSource(parts: seq<string>, reasons: map<string, string>, sourceOf: string -> string): Option<string>
    requires |parts| == 8
  {
    if Strip(parts[1]) != "BLOCK" || Strip(parts[6]) != "source=" + DEFAULT_SOURCE then None
    else
      var mac := Lower(Strip(parts[3]));
      if mac !in reasons || sourceOf(reasons[mac]) == DEFAULT_SOURCE then None else Some(sourceOf(reasons[mac]))
  }

  /** `_rewrite` */
  function Rewrite(line: string, reasons: map<string, string>, sourceOf: string -> string): (string, Option<string>) {
    var parts := SplitMax(Chop(line), 7);
    if |parts| < 8 then (line, None)
    else
      match NewSource(parts, reasons, sourceOf)
      case None => (line, None)
      case Some(source) => (Join(parts[6 := "source=" + source]) + "\n", Some(source))
  }

  lemma ChopJoined(parts: seq<string>, source: string)
    requires |parts| == 8 && (parts[7] == "" || parts[7][|parts[7]| - 1] != '\n')
    ensures Chop(Join(parts[6 := source]) + "\n") == Join(parts[6 := source])
  {
    var s := Join(parts[6 := source]);
    LastChar(parts[6 := source]);
    assert (s + "\n")[..|s|] == s;
    assert Chop(s) == s;
  }

  lemma {:induction false} LastChar(parts: seq<string>)
    requires parts != []
    ensures var s, last := Join(parts), parts[|parts| - 1];
            && (last != "" ==> s != "" && s[|s| - 1] == last[|last| - 1])
            && (last == "" && |parts| > 1 ==> s != "" && s[|s| - 1] == ' ')
  {
    if |parts| <= 1 {
    } else {
      LastChar(parts[1..]);
    }
  }

  lemma LastField(s: string, n: nat)
    requires s == "" || s[|s| - 1] != '\n'
    ensures var parts := SplitMax(s, n);
            parts[|parts| - 1] == "" || parts[|parts| - 1][|parts[|parts| - 1]| - 1] != '\n'
  {
    JoinUndoesSplit(s, n);
    LastChar(SplitMax(s, n));
  }

  /**
   Splitting a rewritten line again gives the new source and the same seven other fields, a message that
   contains separators included, exactly when the new field is closed.
   */
  lemma RewriteKeepsFields(line: string, reasons: map<string, string>, sourceOf: string -> string)
    requires Rewrite(line, reasons, sourceOf).1.Some?
    ensures |SplitMax(Chop(line), 7)| == 8
    ensures var (edited, source) := Rewrite(line, reasons, sourceOf);
            SplitMax(Chop(edited), 7) == SplitMax(Chop(line), 7)[6 := "source=" + source.value]
            <==> Closed("source=" + source.value)
  {
    var parts := SplitMax(Chop(line), 7);
    LastField(Chop(line), 7);
    SplitPartsClosed(Chop(line), 7);
    EditedFields(parts, "source=" + Rewrite(line, reasons, sourceOf).1.value);
  }

  lemma EditedFields(parts: seq<string>, field: string)
    requires |parts| == 8 && AllClosed(parts) && (parts[7] == "" || parts[7][|parts[7]| - 1] != '\n')
    ensures SplitMax(Chop(Join(parts[6 := field]) + "\n"), 7) == parts[6 := field] <==> Closed(field)
  {
    ChopJoined(parts, field);
    SplitUndoesJoin(parts[6 := field]);
    OneFieldChanged(parts, 6, field);
  }

  /** Editing twice is editing once; the second time the line counts as correct, unless stripping makes it "payment". */
  lemma RewriteTwice(line: string, reasons: map<string, string>, sourceOf: string -> string)
    requires var source := Rewrite(line, reasons, sourceOf).1; source.Some? && Closed("source=" + source.value)
    ensures var (edited, source) := Rewrite(line, reasons, sourceOf);
            && Rewrite(edited, reasons, sourceOf).0 == edited
            && (Rewrite(edited, reasons, sourceOf).1.None? <==>
                Strip("source=" + source.value) != "source=" + DEFAULT_SOURCE)
  {
    RewriteKeepsFields(line, reasons, sourceOf);
    var source := Rewrite(line, reasons, sourceOf).1.value;
    var parts := SplitMax(Chop(line), 7);
    assert parts[6 := "source=" + source][6 := "source=" + source] == parts[6 := "source=" + source];
  }

  // ---------------------------------------------------------------- the reader

  datatype Entry = Entry(
    timestamp: string, action: string, ok: bool, mac: Option<string>, name: string, mode: string,
    source: string, user: Option<string>, message: string)

  function WithoutPrefix(s: string, prefix: string): string {
    if prefix <= s then s[|prefix|..] else s
  }

  /** The agent field is told by its shape. */
  predicate IsUserField(s: string) {
    "user=" <= s && '|' !in s[5..]
  }

  function UserOf(tail: seq<string>): Option<string>
    requires tail != []
  {
    var user := if |tail| > 1 && IsUserField(tail[0]) then Strip(WithoutPrefix(tail[0], "user=")) else "";
    if user == "" || user == "-" then None else Some(user)
  }

  function MessageOf(tail: seq<string>): string
    requires tail != []
  {
    Strip(if |tail| > 1 && IsUserField(tail[0]) then tail[1] else Join(tail))
  }

  function EntryOf(parts: seq<string>): Entry
    requires |parts| >= 8
  {
    var mac := Strip(parts[3]);
    Entry(Strip(parts[0]), Strip(parts[1]), Strip(WithoutPrefix(Strip(parts[2]), "ok=")) == "True",
          if mac == "-" then None else Some(mac), Strip(parts[4]),
          WithoutPrefix(Strip(parts[5]), "mode="), WithoutPrefix(Strip(parts[6]), "source="),
          UserOf(parts[7..]), MessageOf(parts[7..]))
  }

  /** `_parse`: nine pieces at most, not the eight its neighbour speaks of. */
  function Parse(line: string): Option<Entry> {
    var parts := SplitMax(Chop(line), 8);
    if |parts| < 8 then None else Some(EntryOf(parts))
  }

  /** Further pieces come out of the last one. */
  lemma {:induction false} SplitFurther(s: string, k: nat, n: nat)
    requires |SplitMax(s, k)| == k + 1 && k <= n
    ensures SplitMax(s, n) == SplitMax(s, k)[..k] + SplitMax(SplitMax(s, k)[k], n - k)
    decreases k
  {
    if k > 0 {
      var head, tail := s[..Find(s).value], s[Find(s).value + 3..];
      var few, all := SplitMax(tail, k - 1), SplitMax(tail, n - 1);
      SplitFurther(tail, k - 1, n - 1);
      HeadInFront(head, few, all, SplitMax(few[k - 1], n - k), k);
    }
  }

  lemma HeadInFront(head: string, few: seq<string>, all: seq<string>, last: seq<string>, k: nat)
    requires |few| == k > 0 && all == few[..k - 1] + last
    ensures [head] + all == ([head] + few)[..k] + last && ([head] + few)[k] == few[k - 1]
  {
    assert ([head] + few)[..k] == [head] + few[..k - 1];
  }

  /** The reader sees the new source and otherwise the same entry, the agent and the message included. */
  lemma ReaderSeesOnlyTheSource(line: string, reasons: map<string, string>, sourceOf: string -> string)
    requires var source := Rewrite(line, reasons, sourceOf).1; source.Some? && Closed("source=" + source.value)
    ensures Parse(line).Some?
    ensures var (edited, source) := Rewrite(line, reasons, sourceOf);
            Parse(edited) ==
            Some(Parse(line).value.(source := WithoutPrefix(Strip("source=" + source.value), "source=")))
  {
    RewriteKeepsFields(line, reasons, sourceOf);
    var (edited, source) := Rewrite(line, reasons, sourceOf);
    var parts := SplitMax(Chop(line), 7);
    SplitFurther(Chop(line), 7, 8);
    SplitFurther(Chop(edited), 7, 8);
    var tail := SplitMax(parts[7], 1);
    var before, after := SplitMax(Chop(line), 8), SplitMax(Chop(edited), 8);
    assert before == parts[..7] + tail;
    assert after == parts[6 := "source=" + source.value][..7] + tail;
    assert before[7..] == tail && after[7..] == tail;
  }

  // ---------------------------------------------------------------- the file

  /** The lines that get the origin `source`. */
  ghost function LinesGiven(lines: seq<string>, reasons: map<string, string>, sourceOf: string -> string,
                            source: string): set<nat>
  {
    set i: nat | i < |lines| && Rewrite(lines[i], reasons, sourceOf).1 == Some(source)
  }

  /** Every origin with the number of its lines; an empty one is not counted. */
  ghost predicate Tallies(changed: map<string, nat>, lines: seq<string>, reasons: map<string, string>,
                          sourceOf: string -> string)
  {
    && (forall s <- changed :: s != "" && changed[s] == |LinesGiven(lines, reasons, sourceOf, s)| > 0)
    && (forall i | 0 <= i < |lines| :: IsTallied(changed, Rewrite(lines[i], reasons, sourceOf).1))
  }

  ghost predicate IsTallied(changed: map<string, nat>, source: Option<string>) {
    source.None? || source == Some("") || source.value in changed
  }

  function Counted(changed: map<string, nat>, resolved: Option<string>): map<string, nat> {
    if resolved.None? || resolved.value == "" then changed
    else changed[resolved.value := (if resolved.value in changed then changed[resolved.value] else 0) + 1]
  }

  lemma OneMoreLine(lines: seq<string>, line: string, reasons: map<string, string>, sourceOf: string -> string,
                    source: string)
    ensures var more := LinesGiven(lines + [line], reasons, sourceOf, source);
            var less := LinesGiven(lines, reasons, sourceOf, source);
            && (Rewrite(line, reasons, sourceOf).1 != Some(source) ==> more == less)
            && (Rewrite(line, reasons, sourceOf).1 == Some(source) ==> |more| == |less| + 1)
  {
    var less, all := LinesGiven(lines, reasons, sourceOf, source), lines + [line];
    assert forall i: nat | i < |lines| :: all[i] == lines[i];
    if Rewrite(line, reasons, sourceOf).1 == Some(source) {
      assert all[|lines|] == line;
      assert LinesGiven(all, reasons, sourceOf, source) == less + {|lines|};
    }
  }

  lemma CountedTallies(changed: map<string, nat>, lines: seq<string>, line: string, reasons: map<string, string>,
                       sourceOf: string -> string)
    requires Tallies(changed, lines, reasons, sourceOf)
    ensures Tallies(Counted(changed, Rewrite(line, reasons, sourceOf).1), lines + [line], reasons, sourceOf)
  {
    var resolved, all := Rewrite(line, reasons, sourceOf).1, lines + [line];
    var counted := Counted(changed, resolved);
    forall s <- counted
      ensures s != "" && counted[s] == |LinesGiven(all, reasons, sourceOf, s)| > 0
    {
      OneMoreLine(lines, line, reasons, sourceOf, s);
      if s !in changed {
        assert LinesGiven(lines, reasons, sourceOf, s) == {} by {
          assert forall i: nat | i < |lines| :: IsTallied(changed, Rewrite(lines[i], reasons, sourceOf).1);
        }
      }
    }
    forall i | 0 <= i < |all| ensures IsTallied(counted, Rewrite(all[i], reasons, sourceOf).1) {
      if i < |lines| {
        assert IsTallied(changed, Rewrite(lines[i], reasons, sourceOf).1);
      }
    }
  }

  function Rewritten(lines: seq<string>, reasons: map<string, string>, sourceOf: string -> string): (out: seq<string>)
    ensures |out| == |lines|
  {
    seq(|lines|, i requires 0 <= i < |lines| => Rewrite(lines[i], reasons, sourceOf).0)
  }

  /** The loop of `run`: every line in its place, and how many went to each source. */
  method RewriteFile(lines: seq<string>, reasons: map<string, string>, sourceOf: string -> string)
    returns (out: seq<string>, changed: map<string, nat>)
    ensures out == Rewritten(lines, reasons, sourceOf)
    ensures Tallies(changed, lines, reasons, sourceOf)
  {
    out, changed := [], map[];
    for i := 0 to |lines|
      invariant out == Rewritten(lines[..i], reasons, sourceOf)
      invariant Tallies(changed, lines[..i], reasons, sourceOf)
    {
      assert lines[..i] + [lines[i]] == lines[..i + 1];
      var (line, resolved) := Rewrite(lines[i], reasons, sourceOf);
      out := out + [line];
      CountedTallies(changed, lines[..i], lines[i], reasons, sourceOf);
      changed := Counted(changed, resolved);
    }
    assert lines[..|lines|] == lines;
  }
}

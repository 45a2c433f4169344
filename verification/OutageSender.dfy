/**
 `send_outage_whatsapp`: a batch of messages that may be limited, fail, be interrupted and be started
 again, with nothing but the text of its log to remember what was done.
 */
module OutageSender {
  import opened Wrappers
  import opened Text

  type Phone = string

  datatype Recipient = Recipient(phone: Phone, name: string)

  // ---------------------------------------------------------------- phone numbers

  predicate IsDigit(c: char) {
    '0' <= c <= '9'
  }

  function Digits(raw: string): (d: string)
    ensures forall i :: 0 <= i < |d| ==> IsDigit(d[i])
  {
    if raw == "" then "" else (if IsDigit(raw[0]) then [raw[0]] else "") + Digits(raw[1..])
  }

  predicate ValidPhone(p: Phone) {
    |p| == 8 && p[0] in "234" && forall i :: 0 <= i < |p| ==> IsDigit(p[i])
  }

  function Normalize(raw: string): Option<Phone> {
    var digits := Digits(raw);
    var digits := if "222" <= digits && |digits| == 11 then digits[3..] else digits;
    if ValidPhone(digits) then Some(digits) else None
  }

  lemma {:induction false} DigitsOfDigits(d: string)
    requires forall i :: 0 <= i < |d| ==> IsDigit(d[i])
    ensures Digits(d) == d
  {
    if d == "" {
    } else {
      DigitsOfDigits(d[1..]);
      assert [d[0]] + d[1..] == d;
    }
  }

  /** A number is found exactly when its digits are written, alone or after the country code, whatever lies between. */
  lemma NormalizeFinds(raw: string, p: Phone)
    ensures Normalize(raw) == Some(p) <==> ValidPhone(p) && (Digits(raw) == p || Digits(raw) == "222" + p)
    ensures Normalize(raw) == Some(p) ==> Normalize(p) == Some(p)
  {
    var digits := Digits(raw);
    if "222" <= digits && |digits| == 11 {
      assert digits == "222" + digits[3..];
    }
    if ValidPhone(p) {
      DigitsOfDigits(p);
      assert ("222" + p)[3..] == p;
    }
  }

  lemma {:induction false} DigitsAdd(a: string, b: string)
    ensures Digits(a + b) == Digits(a) + Digits(b)
  {
    if a == "" {
      assert a + b == b;
    } else {
      DigitsAdd(a[1..], b);
      assert (a + b)[1..] == a[1..] + b;
    }
  }

  /** Eight Arabic figures, of which the first is 2, 3 or 4. */
  predicate IsMobile(p: string)
    requires |p| == 8
  {
    p[0] in {'2', '3', '4'} && forall c <- p :: c in "0123456789"
  }

  /** A number as it is printed, in pairs behind the country code, is found exactly when it is a mobile number. */
  lemma PrintedNumberIsFound(p: string)
    requires |p| == 8
    ensures Normalize("+222 " + p[..2] + " " + p[2..4] + "." + p[4..6] + "-" + p[6..]) == Some(p) <==> IsMobile(p)
  {
    var raw := "+222 " + p[..2] + " " + p[2..4] + "." + p[4..6] + "-" + p[6..];
    PrintedDigits(p[..2], p[2..4], p[4..6], p[6..]);
    DigitsAdd(p[..2], p[2..4]);
    DigitsAdd(p[..4], p[4..6]);
    DigitsAdd(p[..6], p[6..]);
    assert p[..2] + p[2..4] == p[..4] && p[..4] + p[4..6] == p[..6] && p[..6] + p[6..] == p;
    assert Digits(raw) == "222" + Digits(p);
    NormalizeFinds(raw, p);
    if ValidPhone(p) {
      DigitsOfDigits(p);
    }
    MobileNumbers(p);
  }

  lemma MobileNumbers(p: string)
    requires |p| == 8
    ensures ValidPhone(p) <==> IsMobile(p)
  {
    assert forall c: char :: IsDigit(c) <==> c in "0123456789";
    if IsMobile(p) {
      assert forall i :: 0 <= i < |p| ==> p[i] in p;
    }
  }

  lemma PrintedDigits(a: string, b: string, c: string, d: string)
    ensures Digits("+222 " + a + " " + b + "." + c + "-" + d) ==
            "222" + (Digits(a) + Digits(b) + Digits(c) + Digits(d))
  {
    CodeDigits();
    FiveParts("+222 ", a, " ", b, ".", c, "-", d);
    Regroup("222", Digits(a), Digits(b), Digits(c), Digits(d));
  }

  lemma Regroup(x: string, a: string, b: string, c: string, d: string)
    ensures x + a + b + c + d == x + (a + b + c + d)
  {}

  lemma FiveParts(code: string, a: string, m: string, b: string, n: string, c: string, o: string, d: string)
    requires Digits(m) == Digits(n) == Digits(o) == ""
    ensures Digits(code + a + m + b + n + c + o + d) ==
            Digits(code) + Digits(a) + Digits(b) + Digits(c) + Digits(d)
  {
    DigitsAdd(code, a);
    DigitsBehind(code + a, m, b);
    DigitsBehind(code + a + m + b, n, c);
    DigitsBehind(code + a + m + b + n + c, o, d);
  }

  lemma DigitsBehind(front: string, mark: string, x: string)
    requires Digits(mark) == ""
    ensures Digits(front + mark + x) == Digits(front) + Digits(x)
  {
    DigitsAdd(front, mark);
    DigitsAdd(front + mark, x);
  }

  lemma CodeDigits()
    ensures Digits("+222 ") == "222"
    ensures Digits(" ") == Digits(".") == Digits("-") == ""
  {
    assert "+222 "[1..] == "222 " && "222 "[1..] == "22 " && "22 "[1..] == "2 " && "2 "[1..] == " ";
    assert Digits(" ") == "";
    assert Digits("2 ") == "2" && Digits("22 ") == "22";
  }

  // ---------------------------------------------------------------- the log

  /** Reading in text mode ends a line at either character. */
  predicate IsBreak(c: char) {
    c == '\n' || c == '\r'
  }

  predicate IsTab(c: char) {
    c == '\t'
  }

  /** One attempt as the loop logs it. */
  datatype Attempt = Attempt(stamp: string, ok: bool, detail: string)

  function Status(ok: bool): string {
    if ok then "OK" else "KO"
  }

  function Line(a: Attempt, r: Recipient): string {
    a.stamp + "\t" + r.phone + "\t" + Status(a.ok) + "\t" + r.name + "\t" + a.detail
  }

  predicate CountsAsSent(line: string, phone: Phone) {
    var parts := Split(line, IsTab);
    |parts| >= 3 && parts[2] == "OK" && parts[1] == phone
  }

  function OkLines(lines: seq<string>, phone: Phone): nat {
    if lines == [] then 0
    else OkLines(lines[..|lines| - 1], phone) + if CountsAsSent(lines[|lines| - 1], phone) then 1 else 0
  }

  /** How often the log says `phone` was served. */
  function Served(log: string, phone: Phone): nat {
    OkLines(Split(log, IsBreak), phone)
  }

  /** The stamp is a date and the phone a number: neither holds a tab or a line break. */
  predicate Readable(a: Attempt, r: Recipient) {
    && Free(a.stamp, IsBreak) && Free(a.stamp, IsTab)
    && Free(r.phone, IsBreak) && Free(r.phone, IsTab)
  }

  /** The fields from the name on, which come from the file and from the service. */
  function Tail(a: Attempt, r: Recipient): string {
    r.name + "\t" + a.detail
  }

  /** The further lines that a line break in the name or the detail starts. */
  function Strays(a: Attempt, r: Recipient): seq<string> {
    Split(Tail(a, r), IsBreak)[1..]
  }

  function Head(a: Attempt, r: Recipient): string {
    a.stamp + "\t" + r.phone + "\t" + Status(a.ok) + "\t"
  }

  /** A line is read back as written, whatever tabs follow the outcome. */
  lemma LineReadsBack(a: Attempt, r: Recipient, tail: string, phone: Phone)
    requires Readable(a, r)
    ensures CountsAsSent(Head(a, r) + tail, phone) <==> a.ok && r.phone == phone
  {
    assert Head(a, r) + tail == a.stamp + ['\t'] + (r.phone + ['\t'] + (Status(a.ok) + ['\t'] + tail));
    SplitThree(a.stamp, r.phone, Status(a.ok), tail, IsTab, '\t');
    assert Split(Head(a, r) + tail, IsTab)[1] == r.phone && Split(Head(a, r) + tail, IsTab)[2] == Status(a.ok);
  }

  /** Three fields are enough to count, and two are not. */
  lemma ThreeFieldsCount(stamp: string, phone: Phone)
    requires Free(stamp, IsTab) && Free(phone, IsTab)
    ensures CountsAsSent(stamp + "\t" + phone + "\t" + "OK", phone)
    ensures !CountsAsSent(stamp + "\t" + phone, phone)
  {
    SplitFree(stamp, IsTab);
    SplitFree(phone, IsTab);
    SplitFree("OK", IsTab);
    SplitAt(stamp, '\t', phone, IsTab);
    SplitAt(stamp + ['\t'] + phone, '\t', "OK", IsTab);
  }

  /** Fields without a tab are the five fields of the line, in this order. */
  lemma LineFields(a: Attempt, r: Recipient)
    requires Readable(a, r) && Free(r.name, IsTab) && Free(a.detail, IsTab)
    ensures Split(Line(a, r), IsTab) == [a.stamp, r.phone, if a.ok then "OK" else "KO", r.name, a.detail]
  {
    var tail := r.name + ['\t'] + a.detail;
    assert Line(a, r) == a.stamp + ['\t'] + (r.phone + ['\t'] + (Status(a.ok) + ['\t'] + tail));
    SplitThree(a.stamp, r.phone, Status(a.ok), tail, IsTab, '\t');
    SplitAt(r.name, '\t', a.detail, IsTab);
    SplitFree(r.name, IsTab);
    SplitFree(a.detail, IsTab);
  }

  /** The lines of an entry: its own, read back as written, and the strays. */
  lemma EntryLines(a: Attempt, r: Recipient, phone: Phone)
    requires Readable(a, r)
    ensures OkLines(Split(Line(a, r), IsBreak), phone) ==
            (if a.ok && r.phone == phone then 1 else 0) + OkLines(Strays(a, r), phone)
  {
    var tail := Split(Tail(a, r), IsBreak);
    assert Line(a, r) == Head(a, r) + Tail(a, r);
    SplitBehind(Head(a, r), Tail(a, r), IsBreak);
    LineReadsBack(a, r, tail[0], phone);
    OkLinesAdd([Head(a, r) + tail[0]], tail[1..], phone);
    assert [Head(a, r) + tail[0]][..0] == [];
  }

  lemma NothingServed(phone: Phone)
    ensures !CountsAsSent("", phone) && Served("", phone) == 0
    ensures OkLines([""], phone) == 0
  {
    assert Split("", IsBreak) == [""] && [""][..0] == [];
    assert OkLines([], phone) == 0;
  }

  /** Nothing is written after the last line break. */
  predicate EndsLine(log: string) {
    log == "" || IsBreak(log[|log| - 1])
  }

  lemma {:induction false} OkLinesAdd(a: seq<string>, b: seq<string>, phone: Phone)
    ensures OkLines(a + b, phone) == OkLines(a, phone) + OkLines(b, phone)
  {
    if b == [] {
      assert a + b == a;
    } else {
      OkLinesAdd(a, b[..|b| - 1], phone);
      assert (a + b)[..|a + b| - 1] == a + b[..|b| - 1];
    }
  }

  /** A text that ends its line is served as the text before its last break. */
  lemma EmptyLast(front: string, c: char, phone: Phone)
    requires IsBreak(c)
    ensures Served(front + [c], phone) == Served(front, phone)
  {
    assert front + [c] + "" == front + [c];
    SplitAt(front, c, "", IsBreak);
    OkLinesAdd(Split(front, IsBreak), [""], phone);
    NothingServed(phone);
  }

  /**
   Appending an entry serves its recipient once more if it is an OK line, and whoever its stray lines name.
   So it serves nobody else exactly when no stray line is an OK line.
   */
  lemma LogGrows(log: string, a: Attempt, r: Recipient, phone: Phone)
    requires EndsLine(log) && Readable(a, r)
    ensures EndsLine(log + Line(a, r) + "\n")
    ensures var own := if a.ok && r.phone == phone then 1 else 0;
            && Served(log + Line(a, r) + "\n", phone) == Served(log, phone) + own + OkLines(Strays(a, r), phone)
            && (Served(log + Line(a, r) + "\n", phone) == Served(log, phone) + own <==>
                forall k :: 0 <= k < |Strays(a, r)| ==> !CountsAsSent(Strays(a, r)[k], phone))
  {
    var line := Line(a, r);
    EntryLines(a, r, phone);
    NoOkLines(Strays(a, r), phone);
    EmptyLast(log + line, '\n', phone);
    if log == "" {
      assert log + line == line;
      NothingServed(phone);
    } else {
      var front, c := log[..|log| - 1], log[|log| - 1];
      assert log == front + [c];
      EmptyLast(front, c, phone);
      SplitAt(front, c, line, IsBreak);
      OkLinesAdd(Split(front, IsBreak), Split(line, IsBreak), phone);
    }
  }

  lemma {:induction false} NoOkLines(lines: seq<string>, phone: Phone)
    ensures OkLines(lines, phone) == 0 <==> forall k :: 0 <= k < |lines| ==> !CountsAsSent(lines[k], phone)
  {
    if lines == [] {
    } else {
      NoOkLines(lines[..|lines| - 1], phone);
    }
  }

  /** A name and an answer on one line leave no stray line. */
  lemma OneLineHasNoStrays(a: Attempt, r: Recipient)
    requires Free(r.name, IsBreak) && Free(a.detail, IsBreak)
    ensures Strays(a, r) == []
  {
    SplitFree(Tail(a, r), IsBreak);
  }

  // ---------------------------------------------------------------- one run

  function Pending(log: string, recipients: seq<Recipient>): seq<Recipient> {
    if recipients == [] then []
    else
      var n := |recipients| - 1;
      Pending(log, recipients[..n]) + if Served(log, recipients[n].phone) == 0 then [recipients[n]] else []
  }

  /** `todo[:limit]`, a negative limit counting from the end. */
  function Limited<T>(todo: seq<T>, limit: Option<int>): (r: seq<T>)
    ensures r <= todo
  {
    if limit.None? || limit.value >= |todo| then todo
    else if limit.value >= 0 then todo[..limit.value]
    else if -limit.value <= |todo| then todo[..|todo| + limit.value]
    else []
  }

  function Todo(log: string, recipients: seq<Recipient>, limit: Option<int>): seq<Recipient> {
    Limited(Pending(log, recipients), limit)
  }

  /**
   A run with `--send`, over the numbers `load_csv` keeps. It is interrupted when there are fewer attempts
   than recipients to serve; then one more message may have left without its line in the log: `lost` is
   whether the service accepted it.
   */
  datatype Run = Run(recipients: seq<Recipient>, limit: Option<int>, attempts: seq<Attempt>, lost: Option<bool>)

  /** `sent` are the messages the service accepted, in order. */
  datatype World = World(log: string, sent: seq<Phone>)

  predicate Fits(w: World, run: Run) {
    var todo := Todo(w.log, run.recipients, run.limit);
    && |run.attempts| <= |todo|
    && (run.lost.Some? ==> |run.attempts| < |todo|)
    && DistinctPhones(run.recipients) && (forall r :: r in run.recipients ==> ValidPhone(r.phone))
    && (forall i :: 0 <= i < |run.attempts| ==> Stamped(run.attempts[i]))
  }

  predicate DistinctPhones(rs: seq<Recipient>) {
    forall i, j :: 0 <= i < j < |rs| ==> rs[i].phone != rs[j].phone
  }

  predicate Stamped(a: Attempt) {
    Free(a.stamp, IsBreak) && Free(a.stamp, IsTab)
  }

  function Attempted(w: World, todo: seq<Recipient>, attempts: seq<Attempt>): World
    requires |attempts| <= |todo|
  {
    if attempts == [] then w
    else
      var n := |attempts| - 1;
      var before := Attempted(w, todo, attempts[..n]);
      World(before.log + Line(attempts[n], todo[n]) + "\n",
            before.sent + if attempts[n].ok then [todo[n].phone] else [])
  }

  /** The message that left without a line. */
  function LostTo(w: World, run: Run): Option<Phone>
    requires Fits(w, run)
  {
    if run.lost == Some(true) then Some(Todo(w.log, run.recipients, run.limit)[|run.attempts|].phone) else None
  }

  function After(w: World, run: Run): World
    requires Fits(w, run)
  {
    var end := Attempted(w, Todo(w.log, run.recipients, run.limit), run.attempts);
    match LostTo(w, run)
    case None => end
    case Some(phone) => end.(sent := end.sent + [phone])
  }

  function Count(s: seq<Phone>, phone: Phone): nat {
    if s == [] then 0 else Count(s[..|s| - 1], phone) + if s[|s| - 1] == phone then 1 else 0
  }

  predicate Covered(todo: seq<Recipient>, attempts: seq<Attempt>) {
    |attempts| <= |todo| && forall i :: 0 <= i < |attempts| ==> Readable(attempts[i], todo[i])
  }

  /** How many of the attempts served `phone`. */
  function OkTo(todo: seq<Recipient>, attempts: seq<Attempt>, phone: Phone): nat
    requires |attempts| <= |todo|
  {
    if attempts == [] then 0
    else
      var n := |attempts| - 1;
      OkTo(todo, attempts[..n], phone) + if attempts[n].ok && todo[n].phone == phone then 1 else 0
  }

  /** How many stray lines of the attempts count `phone` as served. */
  function StraysTo(todo: seq<Recipient>, attempts: seq<Attempt>, phone: Phone): nat
    requires |attempts| <= |todo|
  {
    if attempts == [] then 0
    else
      var n := |attempts| - 1;
      StraysTo(todo, attempts[..n], phone) + OkLines(Strays(attempts[n], todo[n]), phone)
  }

  lemma {:induction false} AttemptsAreLogged(w: World, todo: seq<Recipient>, attempts: seq<Attempt>, phone: Phone)
    requires EndsLine(w.log) && Covered(todo, attempts)
    ensures var end := Attempted(w, todo, attempts);
            && EndsLine(end.log)
            && Served(end.log, phone)
               == Served(w.log, phone) + OkTo(todo, attempts, phone) + StraysTo(todo, attempts, phone)
  {
    if attempts == [] {
    } else {
      var n := |attempts| - 1;
      AttemptsAreLogged(w, todo, attempts[..n], phone);
      LogGrows(Attempted(w, todo, attempts[..n]).log, attempts[n], todo[n], phone);
    }
  }

  lemma {:induction false} AttemptsAreSent(w: World, todo: seq<Recipient>, attempts: seq<Attempt>, phone: Phone)
    requires |attempts| <= |todo|
    ensures Count(Attempted(w, todo, attempts).sent, phone) == Count(w.sent, phone) + OkTo(todo, attempts, phone)
  {
    if attempts == [] {
    } else {
      var n := |attempts| - 1;
      AttemptsAreSent(w, todo, attempts[..n], phone);
      var before := Attempted(w, todo, attempts[..n]);
      CountPush(before.sent, if attempts[n].ok then [todo[n].phone] else [], phone);
    }
  }

  lemma CountPush(s: seq<Phone>, more: seq<Phone>, phone: Phone)
    requires |more| <= 1
    ensures Count(s + more, phone) == Count(s, phone) + if more == [phone] then 1 else 0
  {
    if more == [] {
      assert s + more == s;
    } else {
      assert (s + more)[..|s|] == s;
    }
  }

  /** Pending are the recipients the log does not count as served. */
  lemma {:induction false} PendingIsUnserved(log: string, recipients: seq<Recipient>)
    ensures forall r :: r in Pending(log, recipients) <==> r in recipients && Served(log, r.phone) == 0
  {
    if recipients == [] {
    } else {
      var n := |recipients| - 1;
      PendingIsUnserved(log, recipients[..n]);
      assert recipients == recipients[..n] + [recipients[n]];
    }
  }

  /** `x` comes before `y` in the list. */
  ghost predicate Before(rs: seq<Recipient>, x: Recipient, y: Recipient) {
    exists i, j :: 0 <= i < j < |rs| && rs[i] == x && rs[j] == y
  }

  /** They keep the order of the list. */
  lemma {:induction false} PendingKeepsOrder(log: string, recipients: seq<Recipient>, i: nat, j: nat)
    requires i < j < |Pending(log, recipients)|
    ensures Before(recipients, Pending(log, recipients)[i], Pending(log, recipients)[j])
    decreases |recipients|
  {
    var n := |recipients| - 1;
    var front, p := recipients[..n], Pending(log, recipients);
    var q := Pending(log, front);
    if j < |q| {
      PendingKeepsOrder(log, front, i, j);
      var a, b :| 0 <= a < b < n && front[a] == p[i] && front[b] == p[j];
      assert recipients[a] == p[i] && recipients[b] == p[j];
    } else {
      PendingIsUnserved(log, front);
      assert p[i] == q[i] && q[i] in q;
      var a :| 0 <= a < n && front[a] == p[i];
      assert recipients[a] == p[i] && recipients[n] == p[j];
    }
  }

  lemma {:induction false} PendingDistinct(log: string, recipients: seq<Recipient>)
    requires DistinctPhones(recipients)
    ensures DistinctPhones(Pending(log, recipients))
  {
    if recipients == [] {
    } else {
      var n := |recipients| - 1;
      PendingDistinct(log, recipients[..n]);
      PendingIsUnserved(log, recipients[..n]);
      forall r | r in Pending(log, recipients[..n]) ensures r.phone != recipients[n].phone {
        assert r in recipients[..n];
      }
    }
  }

  lemma {:induction false} OkToOnce(todo: seq<Recipient>, attempts: seq<Attempt>, phone: Phone)
    requires DistinctPhones(todo) && |attempts| <= |todo|
    ensures OkTo(todo, attempts, phone) <= 1
    ensures OkTo(todo, attempts, phone) == 1 <==>
            exists i :: 0 <= i < |attempts| && attempts[i].ok && todo[i].phone == phone
  {
    if attempts == [] {
    } else {
      OkToOnce(todo, attempts[..|attempts| - 1], phone);
    }
  }

  // ---------------------------------------------------------------- what one run sends

  function RunTodo(w: World, run: Run): seq<Recipient> {
    Todo(w.log, run.recipients, run.limit)
  }

  /** What a run serves: all that are pending, the first n of them, or all but the last k, as its limit says. */
  lemma RunTodoUnderLimit(w: World, run: Run)
    ensures var todo, pending := RunTodo(w, run), Pending(w.log, run.recipients);
            && todo <= pending
            && match run.limit
               case None => todo == pending
               case Some(n) =>
                 |todo| == if n >= |pending| then |pending| else if n >= 0 then n
                           else if |pending| + n >= 0 then |pending| + n else 0
  {
  }

  /** Under a limit of n, lost message included, a run sends n messages at most. */
  lemma LimitedRunSends(w: World, run: Run)
    requires Fits(w, run) && run.limit.Some? && run.limit.value >= 0
    ensures |After(w, run).sent| <= |w.sent| + run.limit.value
  {
    RunTodoUnderLimit(w, run);
    AttemptsSendOnce(w, RunTodo(w, run), run.attempts);
  }

  lemma {:induction false} AttemptsSendOnce(w: World, todo: seq<Recipient>, attempts: seq<Attempt>)
    requires |attempts| <= |todo|
    ensures |Attempted(w, todo, attempts).sent| <= |w.sent| + |attempts|
  {
    if attempts == [] {
    } else {
      AttemptsSendOnce(w, todo, attempts[..|attempts| - 1]);
    }
  }

  /** The service accepts a message to `phone` during the run, logged or lost. */
  ghost predicate Accepted(w: World, run: Run, phone: Phone)
    requires Fits(w, run)
  {
    || LostTo(w, run) == Some(phone)
    || exists i :: 0 <= i < |run.attempts| && run.attempts[i].ok && RunTodo(w, run)[i].phone == phone
  }

  lemma TodoIsUnserved(w: World, run: Run)
    requires Fits(w, run)
    ensures DistinctPhones(RunTodo(w, run)) && Covered(RunTodo(w, run), run.attempts)
    ensures forall i :: 0 <= i < |RunTodo(w, run)| ==> Served(w.log, RunTodo(w, run)[i].phone) == 0
  {
    var pending, todo := Pending(w.log, run.recipients), RunTodo(w, run);
    PendingDistinct(w.log, run.recipients);
    PendingIsUnserved(w.log, run.recipients);
    forall i | 0 <= i < |todo| ensures todo[i] in run.recipients && Served(w.log, todo[i].phone) == 0 {
      assert todo[i] == pending[i] && pending[i] in pending;
    }
  }

  /** A run sends a phone at most one message, and none to a phone that the log says was served. */
  lemma RunSends(w: World, run: Run, phone: Phone)
    requires Fits(w, run)
    ensures Count(After(w, run).sent, phone) == Count(w.sent, phone) + if Accepted(w, run, phone) then 1 else 0
    ensures Accepted(w, run, phone) ==> Served(w.log, phone) == 0
    ensures LostTo(w, run) == Some(phone) ==> OkTo(RunTodo(w, run), run.attempts, phone) == 0
    ensures OkTo(RunTodo(w, run), run.attempts, phone) <= if Accepted(w, run, phone) then 1 else 0
  {
    var todo := RunTodo(w, run);
    TodoIsUnserved(w, run);
    OkToOnce(todo, run.attempts, phone);
    AttemptsAreSent(w, todo, run.attempts, phone);
    if LostTo(w, run).Some? {
      CountPush(Attempted(w, todo, run.attempts).sent, [LostTo(w, run).value], phone);
    }
  }

  /** The run sends `phone` one more message although it was sent one before: the log does not know. */
  ghost predicate Resends(w: World, run: Run, phone: Phone)
    requires Fits(w, run)
  {
    Count(w.sent, phone) >= 1 && Served(w.log, phone) == 0 && Accepted(w, run, phone)
  }

  /** Whoever was sent a message is served according to the log. */
  predicate SafeFor(w: World, phone: Phone) {
    Count(w.sent, phone) == 0 || Served(w.log, phone) >= 1
  }

  /** No run whatever sends `phone` a further message, exactly when the log knows of the one sent. */
  lemma SafeBeforeAnyRun(w: World, phone: Phone)
    requires ValidPhone(phone)
    ensures (forall run :: Fits(w, run) ==> !Resends(w, run, phone)) <==> SafeFor(w, phone)
  {
    if !SafeFor(w, phone) {
      var r, a := Recipient(phone, ""), Attempt("", true, "");
      var run := Run([r], None, [a], None);
      PendingAll(w.log, [r]);
      assert RunTodo(w, run) == [r];
      assert Fits(w, run) && run.attempts[0].ok && RunTodo(w, run)[0].phone == phone;
      assert Resends(w, run, phone);
    }
  }

  lemma RunServes(w: World, run: Run, phone: Phone)
    requires Fits(w, run) && EndsLine(w.log)
    ensures EndsLine(After(w, run).log)
    ensures Served(After(w, run).log, phone) == Served(w.log, phone) + OkTo(RunTodo(w, run), run.attempts, phone)
                                                + StraysTo(RunTodo(w, run), run.attempts, phone)
  {
    TodoIsUnserved(w, run);
    AttemptsAreLogged(w, RunTodo(w, run), run.attempts, phone);
  }

  /** A run leaves a phone safe, unless it loses a message to it and no stray line makes up for it. */
  lemma RunKeepsSafe(w: World, run: Run, phone: Phone)
    requires Fits(w, run) && EndsLine(w.log) && SafeFor(w, phone)
    ensures SafeFor(After(w, run), phone) <==>
            LostTo(w, run) != Some(phone) || StraysTo(RunTodo(w, run), run.attempts, phone) > 0
  {
    RunSends(w, run, phone);
    RunServes(w, run, phone);
    TodoIsUnserved(w, run);
    OkToOnce(RunTodo(w, run), run.attempts, phone);
  }

  // ---------------------------------------------------------------- any history of runs

  predicate History(w: World, runs: seq<Run>)
    decreases |runs|
  {
    runs == [] || (Fits(w, runs[0]) && History(After(w, runs[0]), runs[1..]))
  }

  function AfterAll(w: World, runs: seq<Run>): World
    requires History(w, runs)
    decreases |runs|
  {
    if runs == [] then w else AfterAll(After(w, runs[0]), runs[1..])
  }

  /** The messages to `phone` that left without a line, over a history. */
  function LostCount(w: World, runs: seq<Run>, phone: Phone): nat
    requires History(w, runs)
    decreases |runs|
  {
    if runs == [] then 0
    else (if LostTo(w, runs[0]) == Some(phone) then 1 else 0) + LostCount(After(w, runs[0]), runs[1..], phone)
  }

  /** The stray lines that count `phone` as served, over a history. */
  function StrayCount(w: World, runs: seq<Run>, phone: Phone): nat
    requires History(w, runs)
    decreases |runs|
  {
    if runs == [] then 0
    else StraysTo(RunTodo(w, runs[0]), runs[0].attempts, phone) + StrayCount(After(w, runs[0]), runs[1..], phone)
  }

  /** The OK lines of a phone are the messages it was sent, less the lost ones, and the stray lines. */
  ghost predicate Accounted(w: World, phone: Phone, lost: nat, stray: nat) {
    && EndsLine(w.log)
    && Served(w.log, phone) <= 1 + stray
    && Count(w.sent, phone) + stray == Served(w.log, phone) + lost
  }

  /**
   Over any history of complete, limited, failing and interrupted runs: stray lines aside, at most one OK
   line per phone, and as many messages as that line and the ones lost between the send and the log.
   */
  lemma {:induction false} HistoryIsAccounted(w: World, runs: seq<Run>, phone: Phone, lost: nat, stray: nat)
    requires History(w, runs) && Accounted(w, phone, lost, stray)
    ensures Accounted(AfterAll(w, runs), phone,
                      lost + LostCount(w, runs, phone), stray + StrayCount(w, runs, phone))
    decreases |runs|
  {
    if runs == [] {
    } else {
      RunSends(w, runs[0], phone);
      RunServes(w, runs[0], phone);
      TodoIsUnserved(w, runs[0]);
      OkToOnce(RunTodo(w, runs[0]), runs[0].attempts, phone);
      var more := if LostTo(w, runs[0]) == Some(phone) then 1 else 0;
      var strays := StraysTo(RunTodo(w, runs[0]), runs[0].attempts, phone);
      HistoryIsAccounted(After(w, runs[0]), runs[1..], phone, lost + more, stray + strays);
    }
  }

  ghost predicate SomeRunResends(w: World, runs: seq<Run>, phone: Phone)
    requires History(w, runs)
    decreases |runs|
  {
    runs != [] && (Resends(w, runs[0], phone) || SomeRunResends(After(w, runs[0]), runs[1..], phone))
  }

  /** Nobody is sent a second message, exactly when no run starts without knowing of the first and repeats it. */
  lemma {:induction false} NobodyServedTwice(w: World, runs: seq<Run>, phone: Phone)
    requires History(w, runs)
    ensures Count(w.sent, phone) <= Count(AfterAll(w, runs).sent, phone)
    ensures Count(AfterAll(w, runs).sent, phone) <= 1 <==>
            Count(w.sent, phone) <= 1 && !SomeRunResends(w, runs, phone)
    decreases |runs|
  {
    if runs == [] {
    } else {
      RunSends(w, runs[0], phone);
      NobodyServedTwice(After(w, runs[0]), runs[1..], phone);
    }
  }

  /** Where no message is lost none is repeated, whatever the limits, the failures and the answers. */
  lemma {:induction false} WithoutLossNoRepeat(w: World, runs: seq<Run>, phone: Phone)
    requires History(w, runs) && EndsLine(w.log) && SafeFor(w, phone) && LostCount(w, runs, phone) == 0
    ensures !SomeRunResends(w, runs, phone)
    decreases |runs|
  {
    if runs == [] {
    } else {
      RunKeepsSafe(w, runs[0], phone);
      RunServes(w, runs[0], phone);
      WithoutLossNoRepeat(After(w, runs[0]), runs[1..], phone);
    }
  }

  /** The interruption that does send twice: accepted, not logged, started again. */
  lemma InterruptionSendsTwice(r: Recipient, a: Attempt)
    requires ValidPhone(r.phone) && Stamped(a) && a.ok
    ensures var w := World("", []);
            var runs := [Run([r], None, [], Some(true)), Run([r], None, [a], None)];
            History(w, runs) && AfterAll(w, runs).sent == [r.phone, r.phone]
  {
    var w := World("", []);
    NothingServed(r.phone);
    assert [r][..0] == [];
    assert Pending("", [r]) == [r];
    var first, second := Run([r], None, [], Some(true)), Run([r], None, [a], None);
    var w1 := After(w, first);
    assert w1 == World("", [r.phone]);
    assert Fits(w1, second);
    assert [a][..0] == [];
    var w2 := After(w1, second);
    assert Attempted(w1, [r], []) == w1;
    assert Attempted(w1, [r], [a]).sent == [r.phone] + [r.phone];
    assert [first, second][1..] == [second] && [second][1..] == [];
    assert History(w2, []);
    assert History(w1, [second]) && AfterAll(w1, [second]) == AfterAll(w2, []);
  }

  // ---------------------------------------------------------------- what a run leaves

  /** The recipients of a run whose attempt failed. */
  function FailedOf(todo: seq<Recipient>, attempts: seq<Attempt>): seq<Recipient>
    requires |attempts| == |todo|
  {
    if todo == [] then []
    else
      var n := |todo| - 1;
      FailedOf(todo[..n], attempts[..n]) + if attempts[n].ok then [] else [todo[n]]
  }

  /** Who is pending depends on who is served, for the phones of the list only. */
  lemma {:induction false} PendingFiltered(log: string, later: string, recipients: seq<Recipient>)
    requires forall p :: Served(later, p) == 0 ==> Served(log, p) == 0
    ensures Pending(later, recipients) == Pending(later, Pending(log, recipients))
  {
    if recipients == [] {
    } else {
      var n := |recipients| - 1;
      PendingFiltered(log, later, recipients[..n]);
      var before := Pending(log, recipients[..n]);
      if Served(log, recipients[n].phone) == 0 {
        assert (before + [recipients[n]])[..|before|] == before;
      } else {
        assert before + [] == before;
      }
    }
  }

  lemma {:induction false} PendingAdds(log: string, a: seq<Recipient>, b: seq<Recipient>)
    ensures Pending(log, a + b) == Pending(log, a) + Pending(log, b)
  {
    if b == [] {
      assert a + b == a;
    } else {
      PendingAdds(log, a, b[..|b| - 1]);
      assert (a + b)[..|a + b| - 1] == a + b[..|b| - 1];
    }
  }

  lemma {:induction false} PendingAll(log: string, rs: seq<Recipient>)
    requires forall i :: 0 <= i < |rs| ==> Served(log, rs[i].phone) == 0
    ensures Pending(log, rs) == rs
  {
    if rs == [] {
    } else {
      PendingAll(log, rs[..|rs| - 1]);
    }
  }

  lemma {:induction false} FailedArePending(log: string, todo: seq<Recipient>, attempts: seq<Attempt>)
    requires |attempts| == |todo|
    requires forall i :: 0 <= i < |todo| ==> (Served(log, todo[i].phone) == 0 <==> !attempts[i].ok)
    ensures Pending(log, todo) == FailedOf(todo, attempts)
  {
    if todo == [] {
    } else {
      FailedArePending(log, todo[..|todo| - 1], attempts[..|todo| - 1]);
    }
  }

  /** Nobody of `rs` is named by a stray line. */
  ghost predicate NoStraysTo(rs: seq<Recipient>, todo: seq<Recipient>, attempts: seq<Attempt>)
    requires |attempts| <= |todo|
  {
    forall r :: r in rs ==> StraysTo(todo, attempts, r.phone) == 0
  }

  /** What is pending after a run was pending before it. */
  lemma PendingAfter(w: World, run: Run)
    requires Fits(w, run) && EndsLine(w.log)
    ensures Pending(After(w, run).log, run.recipients)
            == Pending(After(w, run).log, Pending(w.log, run.recipients))
  {
    var end := After(w, run).log;
    forall p ensures Served(w.log, p) <= Served(end, p) {
      RunServes(w, run, p);
    }
    PendingFiltered(w.log, end, run.recipients);
  }

  /** What the log says after a run of those that were pending before it. */
  lemma PendingServed(w: World, run: Run, pending: seq<Recipient>)
    requires Fits(w, run) && EndsLine(w.log) && pending == Pending(w.log, run.recipients)
    ensures forall i :: 0 <= i < |pending| ==>
              Served(After(w, run).log, pending[i].phone)
              == OkTo(RunTodo(w, run), run.attempts, pending[i].phone)
                 + StraysTo(RunTodo(w, run), run.attempts, pending[i].phone)
  {
    PendingIsUnserved(w.log, run.recipients);
    forall i | 0 <= i < |pending|
      ensures Served(After(w, run).log, pending[i].phone)
              == OkTo(RunTodo(w, run), run.attempts, pending[i].phone)
                 + StraysTo(RunTodo(w, run), run.attempts, pending[i].phone)
    {
      assert pending[i] in pending;
      RunServes(w, run, pending[i].phone);
    }
  }

  /**
   A run that reaches its end leaves its failures and whoever was beyond the limit, in order and nobody
   else, exactly when no stray line names one of them.
   */
  lemma CompleteRunLeaves(w: World, run: Run)
    requires Fits(w, run) && EndsLine(w.log)
    requires |run.attempts| == |RunTodo(w, run)|
    ensures var todo := RunTodo(w, run);
            var left := FailedOf(todo, run.attempts) + Pending(w.log, run.recipients)[|todo|..];
            Pending(After(w, run).log, run.recipients) == left <==> NoStraysTo(left, todo, run.attempts)
  {
    var pending, todo := Pending(w.log, run.recipients), RunTodo(w, run);
    var rest := pending[|todo|..];
    assert pending == todo + rest;
    PendingDistinct(w.log, run.recipients);
    PendingAfter(w, run);
    PendingServed(w, run, pending);
    if NoStraysTo(FailedOf(todo, run.attempts) + rest, todo, run.attempts) {
      BothParts(After(w, run).log, todo, rest, run.attempts);
    } else {
      StrayIsNotLeft(w, run, FailedOf(todo, run.attempts) + rest);
    }
  }

  lemma StrayIsNotLeft(w: World, run: Run, left: seq<Recipient>)
    requires Fits(w, run) && EndsLine(w.log) && !NoStraysTo(left, RunTodo(w, run), run.attempts)
    ensures Pending(After(w, run).log, run.recipients) != left
  {
    var r :| r in left && StraysTo(RunTodo(w, run), run.attempts, r.phone) > 0;
    RunServes(w, run, r.phone);
    PendingIsUnserved(After(w, run).log, run.recipients);
  }

  lemma {:induction false} FailuresAreLeft(todo: seq<Recipient>, attempts: seq<Attempt>, i: nat)
    requires |attempts| == |todo| && i < |todo| && !attempts[i].ok
    ensures todo[i] in FailedOf(todo, attempts)
  {
    var n := |todo| - 1;
    if i < n {
      FailuresAreLeft(todo[..n], attempts[..n], i);
    }
  }

  /** Among the recipients attempted the failures are left. */
  lemma AttemptedPart(end: string, todo: seq<Recipient>, attempts: seq<Attempt>)
    requires |attempts| == |todo| && DistinctPhones(todo) && NoStraysTo(FailedOf(todo, attempts), todo, attempts)
    requires forall i :: 0 <= i < |todo| ==>
               Served(end, todo[i].phone)
               == OkTo(todo, attempts, todo[i].phone) + StraysTo(todo, attempts, todo[i].phone)
    ensures Pending(end, todo) == FailedOf(todo, attempts)
  {
    forall i | 0 <= i < |todo| ensures Served(end, todo[i].phone) == 0 <==> !attempts[i].ok {
      OkToOnce(todo, attempts, todo[i].phone);
      if !attempts[i].ok {
        FailuresAreLeft(todo, attempts, i);
      }
    }
    FailedArePending(end, todo, attempts);
  }

  /** Beyond the limit everyone is left. */
  lemma RestPart(end: string, todo: seq<Recipient>, rest: seq<Recipient>, attempts: seq<Attempt>)
    requires |attempts| == |todo| && DistinctPhones(todo + rest) && NoStraysTo(rest, todo, attempts)
    requires forall i :: 0 <= i < |rest| ==>
               Served(end, rest[i].phone)
               == OkTo(todo, attempts, rest[i].phone) + StraysTo(todo, attempts, rest[i].phone)
    ensures Pending(end, rest) == rest
  {
    forall i | 0 <= i < |rest| ensures Served(end, rest[i].phone) == 0 {
      assert (todo + rest)[|todo| + i] == rest[i] && rest[i] in rest;
      forall k | 0 <= k < |todo| ensures todo[k].phone != rest[i].phone {
        assert (todo + rest)[k] == todo[k];
      }
      OkToNobodyElse(todo, attempts, rest[i].phone);
    }
    PendingAll(end, rest);
  }

  lemma BothParts(end: string, todo: seq<Recipient>, rest: seq<Recipient>, attempts: seq<Attempt>)
    requires |attempts| == |todo| && DistinctPhones(todo + rest)
    requires NoStraysTo(FailedOf(todo, attempts) + rest, todo, attempts)
    requires forall i :: 0 <= i < |todo + rest| ==>
               Served(end, (todo + rest)[i].phone)
               == OkTo(todo, attempts, (todo + rest)[i].phone) + StraysTo(todo, attempts, (todo + rest)[i].phone)
    ensures Pending(end, todo + rest) == FailedOf(todo, attempts) + rest
  {
    var all := todo + rest;
    forall i, j | 0 <= i < j < |todo| ensures todo[i].phone != todo[j].phone {
      assert all[i] == todo[i] && all[j] == todo[j];
    }
    forall i | 0 <= i < |todo|
      ensures Served(end, todo[i].phone)
              == OkTo(todo, attempts, todo[i].phone) + StraysTo(todo, attempts, todo[i].phone)
    {
      assert all[i] == todo[i];
    }
    forall i | 0 <= i < |rest|
      ensures Served(end, rest[i].phone)
              == OkTo(todo, attempts, rest[i].phone) + StraysTo(todo, attempts, rest[i].phone)
    {
      assert all[|todo| + i] == rest[i];
    }
    AttemptedPart(end, todo, attempts);
    RestPart(end, todo, rest, attempts);
    PendingAdds(end, todo, rest);
  }

  lemma {:induction false} OkToNobodyElse(todo: seq<Recipient>, attempts: seq<Attempt>, phone: Phone)
    requires |attempts| <= |todo| && forall k :: 0 <= k < |todo| ==> todo[k].phone != phone
    ensures OkTo(todo, attempts, phone) == 0
  {
    if attempts == [] {
    } else {
      OkToNobodyElse(todo, attempts[..|attempts| - 1], phone);
    }
  }

  /** What `send_one` reports when the answer is not JSON: this, then the answer. */
  const NOT_JSON := "r\U{e9}ponse non JSON: "

  /** A line break in an answer that is not JSON: the failure counts another phone as served. */
  lemma AnswerCanServeOthers(log: string, r: Recipient, other: Phone)
    requires EndsLine(log) && ValidPhone(r.phone) && Free(r.name, IsBreak)
    requires ValidPhone(other) && r.phone != other
    ensures var a := Attempt("t", false, NOT_JSON + ("\n" + Forged(other)));
            Served(log + Line(a, r) + "\n", other) == Served(log, other) + 1
  {
    var a := Attempt("t", false, NOT_JSON + ("\n" + Forged(other)));
    ForgedCounts(other);
    TailWithBreak(r, NOT_JSON, Forged(other));
    LogGrows(log, a, r, other);
    assert [Forged(other)][..0] == [];
  }

  lemma TailWithBreak(r: Recipient, before: string, after: string)
    requires Free(r.name, IsBreak) && Free(before, IsBreak) && Free(after, IsBreak)
    ensures Strays(Attempt("t", false, before + ("\n" + after)), r) == [after]
  {
    assert Tail(Attempt("t", false, before + ("\n" + after)), r) == r.name + "\t" + before + ['\n'] + after;
    StrayLine(r.name + "\t" + before, after);
  }

  lemma StrayLine(first: string, second: string)
    requires Free(first, IsBreak) && Free(second, IsBreak)
    ensures Split(first + ['\n'] + second, IsBreak) == [first, second]
  {
    SplitAt(first, '\n', second, IsBreak);
    SplitFree(first, IsBreak);
    SplitFree(second, IsBreak);
  }

  function Forged(phone: Phone): string {
    "t" + ['\t'] + (phone + ['\t'] + ("OK" + ['\t'] + ""))
  }

  lemma ForgedCounts(phone: Phone)
    requires ValidPhone(phone)
    ensures CountsAsSent(Forged(phone), phone) && Free(Forged(phone), IsBreak)
  {
    SplitThree("t", phone, "OK", "", IsTab, '\t');
    assert Split(Forged(phone), IsTab)[1] == phone && Split(Forged(phone), IsTab)[2] == "OK";
  }

  // ---------------------------------------------------------------- the script

  function Phones(rs: seq<Recipient>): set<Phone> {
    set r | r in rs :: r.phone
  }

  /** What `load_csv` reads: the rows with a number, the first of each. */
  function Csv(rows: seq<(string, string)>): seq<Recipient> {
    if rows == [] then []
    else
      var n := |rows| - 1;
      Kept(Csv(rows[..n]), Normalize(rows[n].0), rows[n].1)
  }

  /** One more row: kept if it has a number, and a new one. */
  function Kept(before: seq<Recipient>, phone: Option<Phone>, name: string): seq<Recipient> {
    if phone.Some? && phone.value !in Phones(before) then before + [Recipient(phone.value, name)] else before
  }

  lemma PhonesPush(rs: seq<Recipient>, r: Recipient)
    ensures Phones(rs + [r]) == Phones(rs) + {r.phone}
  {
    assert r in rs + [r];
    forall q | q in rs ensures q in rs + [r] {
    }
  }

  /** The name in the first row that gives `phone`. */
  function FirstName(rows: seq<(string, string)>, phone: Phone): Option<string> {
    if rows == [] then None
    else if Normalize(rows[0].0) == Some(phone) then Some(rows[0].1)
    else FirstName(rows[1..], phone)
  }

  lemma {:induction false} FirstNameSnoc(rows: seq<(string, string)>, phone: Phone)
    requires rows != []
    ensures var n := |rows| - 1;
            FirstName(rows, phone) ==
            if FirstName(rows[..n], phone).Some? then FirstName(rows[..n], phone)
            else if Normalize(rows[n].0) == Some(phone) then Some(rows[n].1) else None
  {
    var n := |rows| - 1;
    if n == 0 {
      assert FirstName(rows[1..], phone) == None;
    } else {
      FirstNameSnoc(rows[1..], phone);
      assert rows[1..][..n - 1] == rows[..n][1..];
    }
  }

  /** Every number of the file is kept once, with the name of its first row. */
  lemma {:induction false} CsvKeepsFirst(rows: seq<(string, string)>, r: Recipient)
    ensures r in Csv(rows) <==> FirstName(rows, r.phone) == Some(r.name)
    ensures r.phone in Phones(Csv(rows)) <==> FirstName(rows, r.phone).Some?
  {
    if rows == [] {
    } else {
      var n := |rows| - 1;
      FirstNameSnoc(rows, r.phone);
      CsvKeepsFirst(rows[..n], r);
    }
  }

  lemma {:induction false} CsvDistinct(rows: seq<(string, string)>)
    ensures DistinctPhones(Csv(rows))
  {
    if rows == [] {
    } else {
      CsvDistinct(rows[..|rows| - 1]);
    }
  }

  /** `load_csv` */
  method LoadCsv(rows: seq<(string, string)>) returns (out: seq<Recipient>)
    ensures out == Csv(rows)
  {
    out := [];
    var seen: set<Phone> := {};
    for k := 0 to |rows|
      invariant out == Csv(rows[..k]) && seen == Phones(out)
    {
      assert rows[..k + 1][..k] == rows[..k];
      var phone := Normalize(rows[k].0);
      if phone.Some? && phone.value !in seen {
        PhonesPush(out, Recipient(phone.value, rows[k].1));
        seen := seen + {phone.value};
        out := out + [Recipient(phone.value, rows[k].1)];
      }
    }
    assert rows[..|rows|] == rows;
  }

  class Sender {
    var log: string
    var sent: seq<Phone>

    function State(): World
      reads this
    {
      World(log, sent)
    }

    constructor (w: World)
      ensures State() == w
    {
      log, sent := w.log, w.sent;
    }

    /** `already_sent` */
    method AlreadySent() returns (done: set<Phone>)
      ensures forall p :: p in done <==> Served(log, p) > 0
    {
      done := {};
      var lines := Split(log, IsBreak);
      for i := 0 to |lines|
        invariant forall p :: p in done <==> OkLines(lines[..i], p) > 0
      {
        assert lines[..i + 1][..i] == lines[..i];
        var parts := Split(lines[i], IsTab);
        if |parts| >= 3 && parts[2] == "OK" {
          done := done + {parts[1]};
        }
      }
      assert lines[..|lines|] == lines;
    }

    /** The recipients not served yet, in the order of the list. */
    method Remaining(recipients: seq<Recipient>, limit: Option<int>) returns (todo: seq<Recipient>)
      ensures todo == Todo(log, recipients, limit)
    {
      var done := AlreadySent();
      todo := [];
      for i := 0 to |recipients|
        invariant todo == Pending(log, recipients[..i])
      {
        assert recipients[..i + 1][..i] == recipients[..i];
        if recipients[i].phone !in done {
          todo := todo + [recipients[i]];
        }
      }
      assert recipients[..|recipients|] == recipients;
      todo := Limited(todo, limit);
    }

    /** The send loop, up to the attempt at which the run ends or is interrupted. */
    method Send(run: Run) returns (ok: nat, failed: nat)
      requires Fits(State(), run)
      modifies this
      ensures State() == After(old(State()), run)
      ensures ok + failed == |run.attempts| && |sent| == |old(sent)| + ok + if run.lost == Some(true) then 1 else 0
      ensures run.limit.Some? && run.limit.value >= 0 ==> |sent| <= |old(sent)| + run.limit.value
    {
      var todo := Remaining(run.recipients, run.limit);
      ghost var w := State();
      ok, failed := 0, 0;
      for i := 0 to |run.attempts|
        invariant State() == Attempted(w, todo, run.attempts[..i])
        invariant ok + failed == i && |sent| == |w.sent| + ok
      {
        assert run.attempts[..i + 1][..i] == run.attempts[..i];
        var a := run.attempts[i];
        if a.ok {
          sent := sent + [todo[i].phone];
          ok := ok + 1;
        } else {
          failed := failed + 1;
        }
        log := log + Line(a, todo[i]) + "\n";
      }
      assert run.attempts[..|run.attempts|] == run.attempts;
      if run.lost == Some(true) {
        sent := sent + [todo[|run.attempts|].phone];
      }
      assert State() == After(w, run);
      if run.limit.Some? && run.limit.value >= 0 {
        LimitedRunSends(w, run);
      }
    }
  }
}

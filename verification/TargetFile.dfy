/** The target file: written by the collector, read by the eBPF loader and by the trace controller. */
module TargetFile {
  import opened Sets
  import opened Sorting
  import opened Intervals
  import opened Decimals

  const U32_MAX: nat := 0xFFFF_FFFF

  /** `sizeof line` in the loader. */
  const LINE: nat := 128

  datatype Target = Target(id: nat, exactTid: bool)

  // ---------------------------------------------------------------- writing

  function PidLine(x: nat): string {
    Decimal(x)
  }

  function TidLine(x: nat): string {
    "tid:" + Decimal(x)
  }

  predicate Positive(xs: seq<int>) {
    forall i :: 0 <= i < |xs| ==> 0 < xs[i]
  }

  lemma ListsPositive(xs: seq<int>, s: set<int>)
    requires Lists(xs, s) && forall x :: x in s ==> 0 < x
    ensures Positive(xs)
  {
    assert forall i :: 0 <= i < |xs| ==> xs[i] in xs;
  }

  function PidLines(xs: seq<int>): seq<string>
    requires Positive(xs)
  {
    seq(|xs|, i requires 0 <= i < |xs| => PidLine(xs[i]))
  }

  function TidLines(xs: seq<int>): seq<string>
    requires Positive(xs)
  {
    seq(|xs|, i requires 0 <= i < |xs| => TidLine(xs[i]))
  }

  /** `"\n".join(lines)`. */
  function Join(lines: seq<string>): string {
    if lines == [] then "" else if |lines| == 1 then lines[0] else lines[0] + "\n" + Join(lines[1..])
  }

  /** Every line with its newline. */
  function Terminated(lines: seq<string>): string {
    if lines == [] then "" else lines[0] + "\n" + Terminated(lines[1..])
  }

  lemma {:induction false} JoinTerminates(lines: seq<string>)
    requires lines != []
    ensures Join(lines) + "\n" == Terminated(lines)
  {
    if |lines| > 1 {
      JoinTerminates(lines[1..]);
      assert Join(lines) + "\n" == lines[0] + "\n" + (Join(lines[1..]) + "\n");
    } else {
      assert Terminated(lines[1..]) == "";
    }
  }

  ghost function Content(pids: set<int>, tids: set<int>): string
    requires forall x :: x in pids || x in tids ==> 0 < x
  {
    ListsPositive(Listing(pids), pids);
    ListsPositive(Listing(tids), tids);
    Terminated(PidLines(Listing(pids)) + TidLines(Listing(tids)))
  }

  lemma ContentIs(ps: seq<int>, ts: seq<int>, pids: set<int>, tids: set<int>)
    requires Lists(ps, pids) && Lists(ts, tids) && forall x :: x in pids || x in tids ==> 0 < x
    ensures Positive(ps) && Positive(ts) && Content(pids, tids) == Terminated(PidLines(ps) + TidLines(ts))
  {
    OneListing(ps, pids);
    OneListing(ts, tids);
    ListsPositive(ps, pids);
    ListsPositive(ts, tids);
  }

  /** The file, line by line: the pids in order, then the tids in order behind `tid:`. */
  lemma FileLines(pids: set<int>, tids: set<int>) returns (lines: seq<string>)
    requires forall x :: x in pids || x in tids ==> 0 < x
    ensures Content(pids, tids) == Terminated(lines) && |lines| == |Listing(pids)| + |Listing(tids)|
    ensures Positive(Listing(pids)) && Positive(Listing(tids))
    ensures forall i :: 0 <= i < |Listing(pids)| ==> lines[i] == Decimal(Listing(pids)[i])
    ensures forall i :: 0 <= i < |Listing(tids)| ==> lines[|Listing(pids)| + i] == "tid:" + Decimal(Listing(tids)[i])
  {
    ContentIs(Listing(pids), Listing(tids), pids, tids);
    lines := PidLines(Listing(pids)) + TidLines(Listing(tids));
  }

  /** One pid and one thread. */
  lemma TwoLineFile()
    ensures Content({5}, {7}) == "5\ntid:7\n"
  {
    ContentIs([5], [7], {5}, {7});
    var lines := ["5", "tid:7"];
    assert PidLine(5) == "5" && TidLine(7) == "tid:" + "7" == "tid:7";
    assert PidLines([5]) + TidLines([7]) == lines;
    assert lines[1..] == ["tid:7"] && lines[1..][1..] == [];
    assert Terminated(lines[1..]) == "tid:7" + "\n" + Terminated([]);
  }

  /** The collector's sets of targets and the file it rewrites. */
  class Collector {
    var workerPids: set<int>
    var exactTids: set<int>
    var file: string

    ghost predicate Valid()
      reads this
    {
      && (forall x :: x in workerPids || x in exactTids ==> 0 < x)
      && file == Content(workerPids, exactTids)
    }

    constructor ()
      ensures Valid() && workerPids == {} && exactTids == {}
    {
      workerPids, exactTids, file := {}, {}, "";
      new;
      EmptyContent();
    }

    /** `_coerce_pid`, on the number that `int` gives, if it gives one. */
    function CoercePid(value: Option<int>): (r: Option<int>)
      ensures r.Some? <==> value.Some? && 0 < value.value
      ensures r.Some? ==> r == value
    {
      if value.Some? && value.value > 0 then value else None
    }

    /** `_persist_target_file`. */
    method PersistTargetFile()
      requires forall x :: x in workerPids || x in exactTids ==> 0 < x
      modifies `file
      ensures Valid()
    {
      var ps := SortedSet(workerPids);
      var ts := SortedSet(exactTids);
      ContentIs(ps, ts, workerPids, exactTids);
      var lines := PidLines(ps) + TidLines(ts);
      if lines != [] {
        JoinTerminates(lines);
      }
      file := if lines != [] then Join(lines) + "\n" else "";
    }

    method PersistWorkerPid(value: Option<int>)
      requires Valid()
      modifies this
      ensures Valid() && exactTids == old(exactTids)
      ensures workerPids == old(workerPids) + if CoercePid(value).Some? then {value.value} else {}
    {
      var pid := CoercePid(value);
      if pid.None? || pid.value in workerPids {
        return;
      }
      workerPids := workerPids + {pid.value};
      PersistTargetFile();
    }

    method PersistExactTid(value: Option<int>)
      requires Valid()
      modifies this
      ensures Valid() && workerPids == old(workerPids)
      ensures exactTids == old(exactTids) + if CoercePid(value).Some? then {value.value} else {}
    {
      var tid := CoercePid(value);
      if tid.None? || tid.value in exactTids {
        return;
      }
      exactTids := exactTids + {tid.value};
      PersistTargetFile();
    }
  }

  lemma EmptyContent()
    ensures Content({}, {}) == ""
  {
    OneListing([], {});
  }

  // ------------------------------------------------------ the loader's parser

  /** `parse_u32_str`. */
  function ParseU32(s: string): Option<nat> {
    if s == "" then None
    else
      var (v, end) := StrToUl(s);
      if end != |s| || v == 0 || v > U32_MAX then None else Some(v)
  }

  function Lower(c: char): char {
    if 'A' <= c <= 'Z' then (c as int + 32) as char else c
  }

  /** `strncasecmp(s, p, strlen(p)) == 0` for a lower-case `p`. */
  predicate HasPrefix(s: string, p: string) {
    |p| <= |s| && forall i :: 0 <= i < |p| ==> Lower(s[i]) == p[i]
  }

  /** `parse_target_spec`. */
  function ParseTarget(s: string): (r: Option<Target>)
    ensures r.Some? ==> 0 < r.value.id <= U32_MAX
  {
    if s == "" then None
    else
      var exact := HasPrefix(s, "tid:") || HasPrefix(s, "thread:");
      var value :=
        if HasPrefix(s, "tid:") then s[4..]
        else if HasPrefix(s, "thread:") then s[7..]
        else if HasPrefix(s, "pid:") then s[4..]
        else if HasPrefix(s, "process:") then s[8..]
        else s;
      match ParseU32(value)
      case None => None
      case Some(id) => Some(Target(id, exact))
  }

  /** The loader's numbers: white space, perhaps a sign, and digits, with a value of 1 to 2^32 - 1; behind a minus sign
      that is what is left to 2^64. */
  lemma ParseU32Means(s: string, v: nat)
    ensures ParseU32(s) == Some(v) <==>
      0 < v <= 0xFFFF_FFFF && exists w, sign, d :: NumberText(s, w, sign, d) && ReadAs(sign, d, v)
  {
    if ParseU32(s) == Some(v) {
      var w, sign, d := NumberRead(s);
      ReadsNumber(s, w, sign, d);
      assert ReadAs(sign, d, v);
    }
    if w, sign, d :| NumberText(s, w, sign, d) && ReadAs(sign, d, v) {
      ReadsNumber(s, w, sign, d);
    }
  }

  ghost predicate ReadAs(sign: string, d: string, v: nat)
    requires AllDigits(d)
  {
    if sign == "-" then v + Value(d) == 0x1_0000_0000_0000_0000 else v == Value(d)
  }

  /** `p` is the lower-case `name` in any mixture of cases. */
  ghost predicate Spells(p: string, name: string) {
    |p| == |name| && forall i :: 0 <= i < |p| ==>
      p[i] == name[i] || ('a' <= name[i] <= 'z' && p[i] as int + 32 == name[i] as int)
  }

  ghost predicate IsName(name: string) {
    name == "tid:" || name == "thread:" || name == "pid:" || name == "process:"
  }

  lemma PrefixSpells(p: string, rest: string, name: string)
    requires IsName(name) && |p| == |name|
    ensures HasPrefix(p + rest, name) <==> Spells(p, name)
  {
    var s := p + rest;
    forall i | 0 <= i < |p|
      ensures s[i] == p[i]
      ensures Lower(p[i]) == name[i] <==>
        p[i] == name[i] || ('a' <= name[i] <= 'z' && p[i] as int + 32 == name[i] as int)
    {
      NameLetter(name, i);
    }
  }

  lemma NameLetter(name: string, i: nat)
    requires IsName(name) && i < |name|
    ensures 'a' <= name[i] <= 'z' || name[i] == ':'
  {
  }

  /** A line may name what it lists: a thread with `tid:` or `thread:`, a process with `pid:` or `process:`. */
  lemma ParseTargetNamed(p: string, rest: string, name: string)
    requires IsName(name) && Spells(p, name)
    ensures ParseTarget(p + rest) ==
      if ParseU32(rest).None? then None else Some(Target(ParseU32(rest).value, name == "tid:" || name == "thread:"))
  {
    var s := p + rest;
    PrefixSpells(p, rest, name);
    assert s[|p|..] == rest;
    assert Lower(s[0]) == name[0] && Lower(s[1]) == name[1];
    assert "tid:"[0] == 't' && "thread:"[0] == 't' && "pid:"[0] == 'p' && "process:"[0] == 'p';
    assert "tid:"[1] == 'i' && "thread:"[1] == 'h' && "pid:"[1] == 'i' && "process:"[1] == 'r';
  }

  /** Without a name the number is a process. */
  lemma ParseTargetPlain(s: string)
    requires forall name, n :: IsName(name) && 0 <= n <= |s| ==> !Spells(s[..n], name)
    ensures ParseTarget(s) == if ParseU32(s).None? then None else Some(Target(ParseU32(s).value, false))
  {
    forall name | IsName(name)
      ensures !HasPrefix(s, name)
    {
      if |name| <= |s| {
        assert s == s[..|name|] + s[|name|..];
        PrefixSpells(s[..|name|], s[|name|..], name);
      }
    }
    assert IsName("tid:") && IsName("thread:") && IsName("pid:") && IsName("process:");
  }

  /** What `fgets` takes from the front of the rest of the file. */
  function Fgets(s: string, room: nat): (n: nat)
    requires room > 0
    ensures n <= |s| && n <= room && (s != "" ==> n > 0)
    decreases room
  {
    if s == "" then 0
    else if s[0] == '\n' || room == 1 then 1
    else 1 + Fgets(s[1..], room - 1)
  }

  /** It takes a line with its newline, or as much of one as there is room for. */
  lemma {:induction false} FgetsMeans(s: string, room: nat)
    requires room > 0
    ensures var n := Fgets(s, room);
      && (forall i :: 0 <= i < n - 1 ==> s[i] != '\n')
      && (n < room && n < |s| ==> n > 0 && s[n - 1] == '\n')
    decreases room
  {
    if s != "" && s[0] != '\n' && room > 1 {
      var rest := s[1..];
      FgetsMeans(rest, room - 1);
      assert forall i :: 0 < i < |s| ==> s[i] == rest[i - 1];
    }
  }

  /** The line as a C string, up to its line end. */
  function CString(s: string): string {
    if s == "" || s[0] in {'\0', '\r', '\n'} then "" else [s[0]] + CString(s[1..])
  }

  lemma {:induction false} CStringMeans(s: string)
    ensures var c := CString(s);
      && c <= s && (forall i :: 0 <= i < |c| ==> c[i] !in {'\0', '\r', '\n'})
      && (|c| < |s| ==> s[|c|] in {'\0', '\r', '\n'})
  {
    if s != "" && s[0] !in {'\0', '\r', '\n'} {
      CStringMeans(s[1..]);
      assert s == [s[0]] + s[1..];
    }
  }

  function ToSeq<T>(x: Option<T>): seq<T> {
    if x.Some? then [x.value] else []
  }

  /** The specifications that the loader accepts, line by line. */
  function Accepted(content: string): seq<Target>
    decreases |content|
  {
    if content == "" then []
    else
      var n := Fgets(content, LINE - 1);
      ToSeq(ParseTarget(CString(content[..n]))) + Accepted(content[n..])
  }

  function ParseAll(lines: seq<string>): seq<Target> {
    if lines == [] then [] else ToSeq(ParseTarget(lines[0])) + ParseAll(lines[1..])
  }

  /** A line that the loader reads in one go. */
  predicate Plain(line: string) {
    |line| + 1 < LINE && forall i :: 0 <= i < |line| ==> line[i] !in {'\0', '\r', '\n'}
  }

  lemma {:induction false} FgetsLine(line: string, rest: string, room: nat)
    requires |line| < room && forall i :: 0 <= i < |line| ==> line[i] != '\n'
    ensures Fgets(line + "\n" + rest, room) == |line| + 1
  {
    var s := line + "\n" + rest;
    if line != "" {
      assert s[0] == line[0] && s[1..] == line[1..] + "\n" + rest;
      FgetsLine(line[1..], rest, room - 1);
    } else {
      assert s[0] == '\n';
    }
  }

  lemma {:induction false} CStringLine(line: string)
    requires forall i :: 0 <= i < |line| ==> line[i] !in {'\0', '\r', '\n'}
    ensures CString(line + "\n") == line
  {
    var s := line + "\n";
    if line != "" {
      assert s[0] == line[0] && s[1..] == line[1..] + "\n";
      CStringLine(line[1..]);
    }
  }

  lemma {:induction false} AcceptedLines(lines: seq<string>)
    requires forall i :: 0 <= i < |lines| ==> Plain(lines[i])
    ensures Accepted(Terminated(lines)) == ParseAll(lines)
  {
    if lines != [] {
      var line, rest := lines[0], Terminated(lines[1..]);
      assert Plain(line);
      FgetsLine(line, rest, LINE - 1);
      CStringLine(line);
      var s := Terminated(lines);
      assert s == line + "\n" + rest;
      assert s[..|line| + 1] == line + "\n" && s[|line| + 1..] == rest;
      AcceptedLines(lines[1..]);
    }
  }

  lemma {:induction false} ParseAllJoin(xs: seq<string>, ys: seq<string>)
    ensures ParseAll(xs + ys) == ParseAll(xs) + ParseAll(ys)
  {
    if xs == [] {
      assert xs + ys == ys;
    } else {
      assert (xs + ys)[1..] == xs[1..] + ys;
      ParseAllJoin(xs[1..], ys);
    }
  }

  // ------------------------------------------------------------- round trip

  /** The loader accepts a positive decimal number exactly when it fits in 32 bits. */
  lemma {:induction false} ParseDecimal(x: nat)
    requires 0 < x
    ensures ParseU32(Decimal(x)) == if x <= U32_MAX then Some(x) else None
  {
    DecimalValue(x);
    StrToUlDigits(Decimal(x));
  }

  lemma ParsePidLine(x: nat)
    requires 0 < x
    ensures ParseTarget(PidLine(x)) == if x <= U32_MAX then Some(Target(x, false)) else None
  {
    ParseDecimal(x);
    var s := Decimal(x);
    assert Digit(s[0]);
    assert Lower(s[0]) == s[0];
    assert "tid:"[0] == 't' && "thread:"[0] == 't' && "pid:"[0] == 'p' && "process:"[0] == 'p';
  }

  lemma ParseTidLine(x: nat)
    requires 0 < x
    ensures ParseTarget(TidLine(x)) == if x <= U32_MAX then Some(Target(x, true)) else None
  {
    ParseDecimal(x);
    assert TidLine(x)[4..] == Decimal(x);
    assert HasPrefix(TidLine(x), "tid:");
  }

  /** The targets among `xs` that fit in 32 bits. */
  ghost function Targets(xs: seq<int>, exact: bool): seq<Target>
    requires Positive(xs)
  {
    if xs == [] then []
    else (if xs[0] <= U32_MAX then [Target(xs[0], exact)] else []) + Targets(xs[1..], exact)
  }

  lemma {:induction false} ParsePidLines(xs: seq<int>)
    requires Positive(xs)
    ensures ParseAll(PidLines(xs)) == Targets(xs, false)
  {
    if xs != [] {
      ParsePidLine(xs[0]);
      assert PidLines(xs)[1..] == PidLines(xs[1..]);
      ParsePidLines(xs[1..]);
    }
  }

  lemma {:induction false} ParseTidLines(xs: seq<int>)
    requires Positive(xs)
    ensures ParseAll(TidLines(xs)) == Targets(xs, true)
  {
    if xs != [] {
      ParseTidLine(xs[0]);
      assert TidLines(xs)[1..] == TidLines(xs[1..]);
      ParseTidLines(xs[1..]);
    }
  }

  lemma {:induction false} TargetsMeaning(xs: seq<int>, exact: bool, t: Target)
    requires Positive(xs)
    ensures t in Targets(xs, exact) <==> t.id in xs && t.id <= U32_MAX && t.exactTid == exact
  {
    if xs != [] {
      TargetsMeaning(xs[1..], exact, t);
      assert t.id in xs <==> t.id == xs[0] || t.id in xs[1..];
    }
  }

  /** Ids whose line the loader reads in one go. */
  ghost predicate Short(s: set<int>) {
    forall x :: x in s ==> 0 < x < Power10(LINE - 6)
  }

  lemma PlainLines(xs: seq<int>)
    requires forall i :: 0 <= i < |xs| ==> 0 < xs[i] < Power10(LINE - 6)
    ensures forall i :: 0 <= i < |xs| ==> Plain(PidLines(xs)[i]) && Plain(TidLines(xs)[i])
  {
    forall i | 0 <= i < |xs|
      ensures Plain(PidLines(xs)[i]) && Plain(TidLines(xs)[i])
    {
      DecimalLength(xs[i], LINE - 6);
      assert forall k :: 0 <= k < |Decimal(xs[i])| ==> Digit(Decimal(xs[i])[k]);
    }
  }

  /** The loader reads back the pids, then the tids, each in order, and drops the ids above 32 bits. */
  lemma {:induction false} LoaderReadsBack(pids: set<int>, tids: set<int>)
    requires Short(pids) && Short(tids)
    ensures Positive(Listing(pids)) && Positive(Listing(tids))
    ensures Accepted(Content(pids, tids)) == Targets(Listing(pids), false) + Targets(Listing(tids), true)
  {
    var ps, ts := Listing(pids), Listing(tids);
    ListsPositive(ps, pids);
    ListsPositive(ts, tids);
    assert forall i :: 0 <= i < |ps| ==> ps[i] in ps;
    assert forall i :: 0 <= i < |ts| ==> ts[i] in ts;
    PlainLines(ps);
    PlainLines(ts);
    AcceptedLines(PidLines(ps) + TidLines(ts));
    ParseAllJoin(PidLines(ps), TidLines(ts));
    ParsePidLines(ps);
    ParseTidLines(ts);
  }

  lemma WordsAreShort()
    ensures U32_MAX < Power10(10) <= Power10(LINE - 6)
  {
    PowerGrows(10, LINE - 6);
  }

  lemma {:induction false} PowerGrows(j: nat, k: nat)
    requires j <= k
    ensures Power10(j) <= Power10(k)
  {
    if j < k {
      PowerGrows(j, k - 1);
    }
  }

  lemma {:induction false} PowerDigits(k: nat)
    ensures |Decimal(Power10(k))| == k + 1
  {
    if k > 0 {
      PowerDigits(k - 1);
    }
  }

  lemma {:induction false} FgetsFull(line: string, rest: string, room: nat)
    requires |line| == room && 0 < room && forall i :: 0 <= i < |line| ==> line[i] != '\n'
    ensures Fgets(line + rest, room) == room
  {
    var s := line + rest;
    assert s[0] == line[0] && s[1..] == line[1..] + rest;
    if room > 1 {
      FgetsFull(line[1..], rest, room - 1);
    }
  }

  lemma LoaderRecovers(pids: set<int>, tids: set<int>, t: Target)
    requires Short(pids) && Short(tids)
    ensures t in Accepted(Content(pids, tids)) <==> t.id <= U32_MAX && t.id in if t.exactTid then tids else pids
  {
    LoaderReadsBack(pids, tids);
    TargetsMeaning(Listing(pids), false, t);
    TargetsMeaning(Listing(tids), true, t);
  }

  lemma {:induction false} OnePid(x: nat)
    requires 0 < x
    ensures Content({x}, {}) == Decimal(x) + "\n"
  {
    var ps, lines := [x], [PidLine(x)];
    ContentIs(ps, [], {x}, {});
    assert PidLines(ps) + TidLines([]) == lines;
    assert Terminated(lines) == lines[0] + "\n" + Terminated(lines[1..]);
  }

  lemma {:induction false} AcceptedLater(s: string, n: nat, t: Target)
    requires s != "" && n == Fgets(s, LINE - 1) && t in Accepted(s[n..])
    ensures t in Accepted(s)
  {
  }

  /** A pid of 128 digits, as there are: the loader's buffer takes all but the last, which it reads as a pid. */
  lemma {:induction false} LongPidMisread(front: nat, d: nat)
    requires |Decimal(front)| == 127 && 0 < d < 10
    ensures Target(d, false) in Accepted(Content({10 * front + d}, {}))
    ensures |Decimal(Power10(LINE - 2))| == LINE - 1
  {
    var x, line, rest := 10 * front + d, Decimal(front), Decimal(d) + "\n";
    PowerDigits(LINE - 2);
    OnePid(x);
    OnePid(d);
    assert x / 10 == front && x % 10 == d && x >= 10;
    assert Content({x}, {}) == line + rest;
    assert forall i :: 0 <= i < |line| ==> Digit(line[i]);
    FgetsFull(line, rest, LINE - 1);
    WordsAreShort();
    LoaderRecovers({d}, {}, Target(d, false));
    assert (line + rest)[LINE - 1..] == rest;
    AcceptedLater(line + rest, LINE - 1, Target(d, false));
  }

  lemma {:induction false} AcceptedFit(content: string, t: Target)
    requires t in Accepted(content)
    ensures 0 < t.id <= U32_MAX
    decreases |content|
  {
    var n := Fgets(content, LINE - 1);
    if t in Accepted(content[n..]) {
      AcceptedFit(content[n..], t);
    }
  }

  /** Every target comes back with the right flag, and nothing else does. */
  ghost predicate Recovered(pids: set<int>, tids: set<int>)
    requires forall x :: x in pids || x in tids ==> 0 < x
  {
    forall t :: t in Accepted(Content(pids, tids)) <==> t.id in if t.exactTid then tids else pids
  }

  /** Ids of 32 bits, the range the loader promises, come back. */
  lemma WordsRecovered(pids: set<int>, tids: set<int>)
    requires forall x :: x in pids || x in tids ==> 0 < x <= U32_MAX
    ensures Recovered(pids, tids)
  {
    WordsAreShort();
    forall t
      ensures t in Accepted(Content(pids, tids)) <==> t.id in if t.exactTid then tids else pids
    {
      LoaderRecovers(pids, tids, t);
    }
  }

  /** The loader recovers both sets exactly when every id fits in 32 bits, however long the others are. */
  lemma LoaderRoundTrip(pids: set<int>, tids: set<int>)
    requires forall x :: x in pids || x in tids ==> 0 < x
    ensures Recovered(pids, tids) <==> forall x :: x in pids || x in tids ==> x <= U32_MAX
  {
    if Recovered(pids, tids) {
      forall x | x in pids || x in tids
        ensures x <= U32_MAX
      {
        var t := Target(x, x !in pids);
        assert t in Accepted(Content(pids, tids));
        AcceptedFit(Content(pids, tids), t);
      }
    } else if forall x :: x in pids || x in tids ==> x <= U32_MAX {
      WordsRecovered(pids, tids);
    }
  }

  // ------------------------------------------------- the controller's reader

  /** White space that `str.strip` removes. */
  predicate Blank(c: char) {
    var n := c as int;
    || 0x09 <= n <= 0x0D || 0x1C <= n <= 0x20 || n == 0x85 || n == 0xA0 || n == 0x1680
    || 0x2000 <= n <= 0x200A || n == 0x2028 || n == 0x2029 || n == 0x202F || n == 0x205F || n == 0x3000
  }

  /** The same characters, one by one. */
  lemma BlankTable(c: char)
    ensures Blank(c) <==> c in {
      '\t', '\n', '\U{B}', '\U{C}', '\r', '\U{1C}', '\U{1D}', '\U{1E}', '\U{1F}', ' ', '\U{85}', '\U{A0}', '\U{1680}',
      '\U{2000}', '\U{2001}', '\U{2002}', '\U{2003}', '\U{2004}', '\U{2005}', '\U{2006}', '\U{2007}', '\U{2008}',
      '\U{2009}', '\U{200A}', '\U{2028}', '\U{2029}', '\U{202F}', '\U{205F}', '\U{3000}'}
  {
  }

  function StripLeft(s: string): string {
    if s != "" && Blank(s[0]) then StripLeft(s[1..]) else s
  }

  function Strip(s: string): string {
    var t := StripLeft(s);
    StripRight(t)
  }

  function StripRight(s: string): string {
    if s != "" && Blank(s[|s| - 1]) then StripRight(s[..|s| - 1]) else s
  }

  /** The pid of a line, if it holds one. */
  function LinePid(raw: string): Option<int> {
    var line := Strip(raw);
    if line == "" || "tid:" <= line then None
    else
      match PyInt(line)
      case None => None
      case Some(pid) => if pid > 0 then Some(pid) else None
  }

  /** The end of the next line; text mode takes `\r` as a line end too. */
  function LineEnd(s: string): (n: nat)
    ensures n <= |s| && (s != "" ==> n > 0)
  {
    if s == "" then 0 else if s[0] == '\n' || s[0] == '\r' then 1 else 1 + LineEnd(s[1..])
  }

  /** The lines of the file, each with its line end. */
  ghost function RawLines(content: string): seq<string>
    decreases |content|
  {
    if content == "" then []
    else
      var n := LineEnd(content);
      [content[..n]] + RawLines(content[n..])
  }

  /** Some line of the file holds the pid: the line without white space around it is an integer above 0. */
  lemma {:induction false} PidsInMeans(content: string, pid: int)
    ensures pid in PidsIn(content) <==>
      pid > 0 && exists i :: 0 <= i < |RawLines(content)| && HoldsPid(RawLines(content)[i], pid)
    decreases |content|
  {
    if content != "" {
      var n := LineEnd(content);
      var rest := RawLines(content[n..]);
      PidsInMeans(content[n..], pid);
      assert RawLines(content) == [content[..n]] + rest;
      assert RawLines(content)[0] == content[..n];
      if i :| 0 <= i < |rest| && HoldsPid(rest[i], pid) {
        assert RawLines(content)[i + 1] == rest[i];
      }
      if i :| 0 <= i < |RawLines(content)| && HoldsPid(RawLines(content)[i], pid) {
        assert i > 0 ==> RawLines(content)[i] == rest[i - 1];
      }
    }
  }

  ghost predicate HoldsPid(raw: string, pid: int) {
    !("tid:" <= Strip(raw)) && PyInt(Strip(raw)) == Some(pid)
  }

  ghost function PidsIn(content: string): set<int>
    decreases |content|
  {
    if content == "" then {}
    else
      var n := LineEnd(content);
      var pid := LinePid(content[..n]);
      (if pid.Some? then {pid.value} else {}) + PidsIn(content[n..])
  }

  /** `read_worker_pids` on a file that exists. */
  method ReadWorkerPids(content: string) returns (r: seq<int>)
    ensures r == Listing(PidsIn(content))
  {
    var pids: set<int>, rest := {}, content;
    while rest != ""
      invariant pids + PidsIn(rest) == PidsIn(content)
      decreases |rest|
    {
      var n := LineEnd(rest);
      var pid := LinePid(rest[..n]);
      if pid.Some? {
        pids := pids + {pid.value};
      }
      rest := rest[n..];
    }
    assert pids == PidsIn(content);
    r := SortedSet(pids);
    OneListing(r, pids);
  }

  lemma {:induction false} LineEndLine(line: string, rest: string)
    requires Unsplit(line)
    ensures LineEnd(line + "\n" + rest) == |line| + 1
  {
    var s := line + "\n" + rest;
    if line != "" {
      assert s[0] == line[0] && s[1..] == line[1..] + "\n" + rest;
      LineEndLine(line[1..], rest);
    } else {
      assert s[0] == '\n';
    }
  }

  lemma StripLine(line: string)
    requires line != "" && !Blank(line[0]) && !Blank(line[|line| - 1])
    ensures Strip(line + "\n") == line
  {
    var s := line + "\n";
    assert StripLeft(s) == s by {
      assert s[0] == line[0];
    }
    assert s[|s| - 1] == '\n' && Blank('\n') && s[..|s| - 1] == line;
    assert StripRight(s) == StripRight(line) == line;
  }

  ghost function LinePids(lines: seq<string>): set<int> {
    if lines == [] then {}
    else
      var pid := LinePid(lines[0] + "\n");
      (if pid.Some? then {pid.value} else {}) + LinePids(lines[1..])
  }

  lemma {:induction false} PidsInLines(lines: seq<string>)
    requires forall i :: 0 <= i < |lines| ==> Unsplit(lines[i])
    ensures PidsIn(Terminated(lines)) == LinePids(lines)
  {
    if lines != [] {
      var line, rest := lines[0], Terminated(lines[1..]);
      LineEndLine(line, rest);
      var s := Terminated(lines);
      assert s == line + "\n" + rest;
      assert s[..|line| + 1] == line + "\n" && s[|line| + 1..] == rest;
      PidsInLines(lines[1..]);
    }
  }

  lemma {:induction false} LinePidsJoin(xs: seq<string>, ys: seq<string>)
    ensures LinePids(xs + ys) == LinePids(xs) + LinePids(ys)
  {
    if xs == [] {
      assert xs + ys == ys;
    } else {
      assert (xs + ys)[1..] == xs[1..] + ys;
      LinePidsJoin(xs[1..], ys);
    }
  }

  lemma ReadPidLine(x: nat)
    requires 0 < x
    ensures LinePid(PidLine(x) + "\n") == Some(x)
  {
    var s := Decimal(x);
    assert Digit(s[0]) && Digit(s[|s| - 1]);
    StripLine(s);
    DecimalValue(x);
    PyIntDigits(s);
    assert "tid:"[0] == 't';
  }

  lemma ReadTidLine(x: nat)
    ensures LinePid(TidLine(x) + "\n") == None
  {
    var s := TidLine(x);
    assert s[0] == 't' && s[|s| - 1] == Decimal(x)[|Decimal(x)| - 1] && Digit(s[|s| - 1]);
    StripLine(s);
  }

  lemma ReadPidLines(xs: seq<int>)
    requires Positive(xs)
    ensures forall x :: x in LinePids(PidLines(xs)) <==> x in xs
  {
    if xs != [] {
      ReadPidLine(xs[0]);
      assert PidLines(xs)[1..] == PidLines(xs[1..]);
      ReadPidLines(xs[1..]);
    }
  }

  lemma ReadTidLines(xs: seq<int>)
    requires Positive(xs)
    ensures LinePids(TidLines(xs)) == {}
  {
    if xs != [] {
      ReadTidLine(xs[0]);
      assert TidLines(xs)[1..] == TidLines(xs[1..]);
      ReadTidLines(xs[1..]);
    }
  }

  /** The controller reads back exactly the pids, whatever their size. */
  lemma ControllerRoundTrip(pids: set<int>, tids: set<int>)
    requires forall x :: x in pids || x in tids ==> 0 < x
    ensures PidsIn(Content(pids, tids)) == pids
  {
    var ps, ts := Listing(pids), Listing(tids);
    ListsPositive(ps, pids);
    ListsPositive(ts, tids);
    ReadsLines(ps, ts);
    forall x
      ensures x in PidsIn(Content(pids, tids)) <==> x in pids
    {
      assert x in pids <==> x in ps;
    }
    SameSet(PidsIn(Content(pids, tids)), pids);
  }

  lemma ReadsLines(ps: seq<int>, ts: seq<int>)
    requires Positive(ps) && Positive(ts)
    ensures forall x :: x in PidsIn(Terminated(PidLines(ps) + TidLines(ts))) <==> x in ps
  {
    NoneSplit(ps);
    NoneSplit(ts);
    PidsInLines(PidLines(ps) + TidLines(ts));
    LinePidsJoin(PidLines(ps), TidLines(ts));
    ReadPidLines(ps);
    ReadTidLines(ts);
  }

  predicate Unsplit(line: string) {
    forall k :: 0 <= k < |line| ==> line[k] != '\n' && line[k] != '\r'
  }

  lemma NoneSplit(xs: seq<int>)
    requires Positive(xs)
    ensures forall i :: 0 <= i < |xs| ==> Unsplit(PidLines(xs)[i]) && Unsplit(TidLines(xs)[i])
  {
    forall i | 0 <= i < |xs|
      ensures Unsplit(PidLines(xs)[i]) && Unsplit(TidLines(xs)[i])
    {
      assert forall k :: 0 <= k < |Decimal(xs[i])| ==> Digit(Decimal(xs[i])[k]);
    }
  }
}

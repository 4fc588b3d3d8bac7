/** The controller's state file: lines of `key=value`. */
module StateFile {
  import opened Sets
  import opened TargetFile

  type Table = map<string, string>

  // ---------------------------------------------------------------- stripping

  predicate Trimmed(s: string) {
    s == "" || (!Blank(s[0]) && !Blank(s[|s| - 1]))
  }

  lemma StripLeftPart(s: string) returns (a: nat)
    ensures a <= |s| && StripLeft(s) == s[a..] && (StripLeft(s) != "" ==> !Blank(StripLeft(s)[0]))
    ensures forall j :: 0 <= j < a ==> Blank(s[j])
  {
    a := 0;
    if s != "" && Blank(s[0]) {
      a := StripLeftPart(s[1..]);
      assert s[1..][a..] == s[a + 1..];
      a := a + 1;
    }
  }

  lemma StripRightPart(s: string) returns (b: nat)
    ensures b <= |s| && StripRight(s) == s[..b] && (b > 0 ==> !Blank(s[b - 1]))
    ensures forall j :: b <= j < |s| ==> Blank(s[j])
  {
    b := |s|;
    if s != "" && Blank(s[|s| - 1]) {
      b := StripRightPart(s[..|s| - 1]);
      assert s[..|s| - 1][..b] == s[..b];
    }
  }

  /** Stripping cuts white space off both ends, and leaves a trimmed text as it is. */
  lemma StripPart(s: string) returns (a: nat, b: nat)
    ensures a <= b <= |s| && Strip(s) == s[a..b] && Trimmed(Strip(s))
    ensures forall j :: 0 <= j < a || b <= j < |s| ==> Blank(s[j])
    ensures Trimmed(s) ==> Strip(s) == s
  {
    a := StripLeftPart(s);
    var n := StripRightPart(s[a..]);
    b := a + n;
    assert s[a..][..n] == s[a..b];
    assert forall j :: b <= j < |s| ==> s[j] == s[a..][j - a];
  }

  // ------------------------------------------------------------------ reading

  /** `line.split("=", 1)` cuts here. */
  function FirstEquals(s: string): (i: nat)
    requires '=' in s
    ensures i < |s| && s[i] == '=' && forall j :: 0 <= j < i ==> s[j] != '='
  {
    if s[0] == '=' then 0 else FirstEquals(s[1..]) + 1
  }

  function AddLine(m: Table, raw: string): Table {
    var line := Strip(raw);
    if line == "" || '=' !in line then m
    else
      var i := FirstEquals(line);
      m[Strip(line[..i]) := Strip(line[i + 1..])]
  }

  ghost function Loaded(content: string, m: Table): Table
    decreases |content|
  {
    if content == "" then m
    else
      var n := LineEnd(content);
      Loaded(content[n..], AddLine(m, content[..n]))
  }

  /** The line is `k = v` up to white space, cut at its first `=`. */
  ghost predicate Says(raw: string, k: string, v: string) {
    var line := Strip(raw);
    '=' in line && k == Strip(line[..FirstEquals(line)]) && v == Strip(line[FirstEquals(line) + 1..])
  }

  ghost predicate Names(raw: string, k: string) {
    exists v :: Says(raw, k, v)
  }

  ghost predicate Named(lines: seq<string>, k: string) {
    exists i :: 0 <= i < |lines| && Names(lines[i], k)
  }

  /** The last line that names `k` gives it the value `v`. */
  ghost predicate LastSays(lines: seq<string>, k: string, v: string) {
    exists i :: 0 <= i < |lines| && Says(lines[i], k, v) && forall j :: i < j < |lines| ==> !Names(lines[j], k)
  }

  lemma AddLineMeaning(m: Table, raw: string, k: string)
    ensures k in AddLine(m, raw) <==> k in m || Names(raw, k)
    ensures Names(raw, k) ==> Says(raw, k, AddLine(m, raw)[k])
    ensures k in m && !Names(raw, k) ==> AddLine(m, raw)[k] == m[k]
  {
    var line := Strip(raw);
    if '=' in line {
      var i := FirstEquals(line);
      assert Says(raw, Strip(line[..i]), Strip(line[i + 1..]));
    }
  }

  lemma NamedFirst(raw: string, rest: seq<string>, k: string)
    ensures Named([raw] + rest, k) <==> Names(raw, k) || Named(rest, k)
  {
    if i :| 0 <= i < |rest| && Names(rest[i], k) {
      assert ([raw] + rest)[i + 1] == rest[i];
    }
    assert ([raw] + rest)[0] == raw;
  }

  lemma LastSaysFirst(raw: string, rest: seq<string>, k: string, v: string)
    requires LastSays(rest, k, v) || (!Named(rest, k) && Says(raw, k, v))
    ensures LastSays([raw] + rest, k, v)
  {
    var all := [raw] + rest;
    assert all[0] == raw;
    forall j | 0 < j < |all|
      ensures all[j] == rest[j - 1]
    {
    }
    if LastSays(rest, k, v) {
      var i :| 0 <= i < |rest| && Says(rest[i], k, v) && forall j :: i < j < |rest| ==> !Names(rest[j], k);
      LastAt(all, i + 1, k, v);
    } else {
      LastAt(all, 0, k, v);
    }
  }

  lemma LastAt(lines: seq<string>, i: nat, k: string, v: string)
    requires i < |lines| && Says(lines[i], k, v) && forall j :: i < j < |lines| ==> !Names(lines[j], k)
    ensures LastSays(lines, k, v)
  {
  }

  /** What is loaded after `acc`: the keys that the lines name, each with the value of its last line. */
  lemma {:induction false} LoadedMeaning(content: string, acc: Table, k: string)
    ensures var r, lines := Loaded(content, acc), RawLines(content);
      && (k in r <==> k in acc || Named(lines, k))
      && (Named(lines, k) ==> LastSays(lines, k, r[k]))
      && (k in acc && !Named(lines, k) ==> r[k] == acc[k])
    decreases |content|
  {
    if content != "" {
      var n := LineEnd(content);
      var raw, rest := content[..n], RawLines(content[n..]);
      var next := AddLine(acc, raw);
      AddLineMeaning(acc, raw, k);
      LoadedMeaning(content[n..], next, k);
      NamedFirst(raw, rest, k);
      if Named(RawLines(content), k) {
        LastSaysFirst(raw, rest, k, Loaded(content, acc)[k]);
      }
    }
  }

  /** `load_state` on a file that exists: the last line of a key wins. */
  method LoadState(content: string) returns (m: Table)
    ensures m == Loaded(content, map[])
    ensures forall k :: k in m <==> Named(RawLines(content), k)
    ensures forall k :: k in m ==> LastSays(RawLines(content), k, m[k])
  {
    m := map[];
    var rest := content;
    while rest != ""
      invariant Loaded(rest, m) == Loaded(content, map[])
      decreases |rest|
    {
      var n := LineEnd(rest);
      m := AddLine(m, rest[..n]);
      rest := rest[n..];
    }
    forall k
      ensures k in m <==> Named(RawLines(content), k)
      ensures k in m ==> LastSays(RawLines(content), k, m[k])
    {
      LoadedMeaning(content, map[], k);
    }
  }

  // ------------------------------------------------------------------ writing

  function Line(m: Table, k: string): string
    requires k in m
  {
    k + "=" + m[k]
  }

  function Lines(keys: seq<string>, m: Table): (r: seq<string>)
    requires forall k :: k in keys ==> k in m
    ensures |r| == |keys| && forall i :: 0 <= i < |r| ==> r[i] == keys[i] + "=" + m[keys[i]]
  {
    if keys == [] then [] else [Line(m, keys[0])] + Lines(keys[1..], m)
  }

  // ------------------------------------------------------------ sorted keys

  /** The order of strings: character by character, a prefix first. */
  predicate Before(a: string, b: string) {
    if b == "" then false
    else if a == "" then true
    else if a[0] != b[0] then a[0] < b[0]
    else Before(a[1..], b[1..])
  }

  /** The strings are the same up to `k`, where `b` has a larger character or goes on alone. */
  ghost predicate DiffersAt(a: string, b: string, k: nat) {
    k <= |a| && k < |b| && a[..k] == b[..k] && (k < |a| ==> a[k] < b[k])
  }

  /** The first difference decides, and the longer string has some character there. */
  lemma {:induction false} BeforeMeans(a: string, b: string)
    ensures Before(a, b) <==> exists k :: 0 <= k && DiffersAt(a, b, k)
  {
    if b == "" || a == "" {
      assert a == "" && b != "" ==> DiffersAt(a, b, 0);
    } else if a[0] != b[0] {
      assert DiffersAt(a, b, 0) <==> a[0] < b[0];
      assert forall k :: 0 < k <= |a| && k < |b| ==> a[..k][0] == a[0] && b[..k][0] == b[0];
    } else {
      BeforeMeans(a[1..], b[1..]);
      if k :| 0 <= k && DiffersAt(a[1..], b[1..], k) {
        assert a[..k + 1] == [a[0]] + a[1..][..k] && b[..k + 1] == [b[0]] + b[1..][..k];
        assert DiffersAt(a, b, k + 1);
      }
      if k :| 0 <= k && DiffersAt(a, b, k) {
        assert k > 0;
        assert a[1..][..k - 1] == a[..k][1..] && b[1..][..k - 1] == b[..k][1..];
        assert DiffersAt(a[1..], b[1..], k - 1);
      }
    }
  }

  lemma {:induction false} BeforeOrders(a: string, b: string)
    ensures Before(a, b) || Before(b, a) || a == b
    ensures !(Before(a, b) && Before(b, a))
  {
    if a != "" && b != "" && a[0] == b[0] {
      BeforeOrders(a[1..], b[1..]);
      assert a[1..] == b[1..] ==> a == [a[0]] + a[1..] == b;
    }
  }

  lemma {:induction false} BeforeChains(a: string, b: string, c: string)
    requires Before(a, b) && Before(b, c)
    ensures Before(a, c)
  {
    if a != "" && a[0] == b[0] == c[0] {
      BeforeChains(a[1..], b[1..], c[1..]);
    }
  }

  ghost predicate InOrder(keys: seq<string>) {
    forall i, j :: 0 <= i < j < |keys| ==> Before(keys[i], keys[j])
  }

  lemma {:induction false} JoinInOrder(a: seq<string>, k: string, b: seq<string>)
    requires InOrder(a) && InOrder(b)
    requires (forall i :: 0 <= i < |a| ==> Before(a[i], k)) && (forall j :: 0 <= j < |b| ==> Before(k, b[j]))
    ensures InOrder(a + [k] + b)
  {
    forall i, j | 0 <= i < |a| && 0 <= j < |b|
      ensures Before(a[i], b[j])
    {
      BeforeChains(a[i], k, b[j]);
    }
  }

  method InsertKey(keys: seq<string>, k: string) returns (r: seq<string>)
    requires InOrder(keys) && k !in keys
    ensures InOrder(r) && forall x :: x in r <==> x in keys || x == k
  {
    var i := |keys|;
    while i > 0 && Before(k, keys[i - 1])
      invariant 0 <= i <= |keys|
      invariant forall j :: i <= j < |keys| ==> Before(k, keys[j])
    {
      i := i - 1;
    }
    forall j | 0 <= j < i
      ensures Before(keys[j], k)
    {
      assert keys[i - 1] in keys;
      BeforeOrders(keys[i - 1], k);
      if j < i - 1 {
        BeforeChains(keys[j], keys[i - 1], k);
      }
    }
    JoinInOrder(keys[..i], k, keys[i..]);
    r := keys[..i] + [k] + keys[i..];
    assert keys == keys[..i] + keys[i..];
  }

  /** `sorted(state)`. */
  method SortedKeys(m: Table) returns (keys: seq<string>)
    ensures InOrder(keys) && forall k :: k in keys <==> k in m
  {
    keys := [];
    var todo := m.Keys;
    while |todo| > 0
      invariant todo <= m.Keys && InOrder(keys)
      invariant forall k :: k in keys <==> k in m.Keys - todo
    {
      var k := Pick(todo);
      keys := InsertKey(keys, k);
      todo := todo - {k};
    }
  }

  /** `save_state`: one line for each key, in order; loading them gives the table back iff it is clean. */
  method SaveState(m: Table) returns (content: string, ghost keys: seq<string>)
    ensures InOrder(keys) && forall k :: k in keys <==> k in m
    ensures content == Terminated(Lines(keys, m))
    ensures Loaded(content, map[]) == m <==> CleanTable(m)
  {
    var sorted := SortedKeys(m);
    content := "";
    assert sorted[0..] == sorted;
    for i := 0 to |sorted|
      invariant content + Terminated(Lines(sorted[i..], m)) == Terminated(Lines(sorted, m))
    {
      assert sorted[i] in sorted && sorted[i..][1..] == sorted[i + 1..];
      SaveStep(content, sorted[i..], m);
      content := content + Line(m, sorted[i]) + "\n";
    }
    assert sorted[|sorted|..] == [];
    keys := sorted;
    StateRoundTrip(sorted, m);
  }

  lemma {:induction false} SaveStep(content: string, keys: seq<string>, m: Table)
    requires keys != [] && forall k :: k in keys ==> k in m
    ensures content + Terminated(Lines(keys, m)) == content + Line(m, keys[0]) + "\n" + Terminated(Lines(keys[1..], m))
  {
    assert Lines(keys, m)[1..] == Lines(keys[1..], m);
  }

  // --------------------------------------------------------------- round trip

  predicate Clean(s: string) {
    Trimmed(s) && Unsplit(s)
  }

  /** Keys and values without white space around them or line ends in them, and keys without `=`. */
  predicate CleanTable(m: Table) {
    forall k :: k in m ==> Clean(k) && '=' !in k && Clean(m[k])
  }

  lemma LineTrimmed(k: string, v: string)
    requires Clean(k) && Clean(v)
    ensures Strip(k + "=" + v + "\n") == k + "=" + v
  {
    var line := k + "=" + v;
    assert line[0] == if k == "" then '=' else k[0];
    assert line[|line| - 1] == if v == "" then '=' else v[|v| - 1];
    StripLine(line);
  }

  /** Reading a written line stores its key and value. */
  lemma AddWritten(acc: Table, k: string, v: string)
    requires Clean(k) && '=' !in k && Clean(v)
    ensures AddLine(acc, k + "=" + v + "\n") == acc[k := v]
  {
    LineTrimmed(k, v);
    var line := k + "=" + v;
    assert line[|k|] == '=';
    var i := FirstEquals(line);
    assert forall j :: 0 <= j < |k| ==> line[j] == k[j] && k[j] in k;
    assert i == |k|;
    assert line[..i] == k && line[i + 1..] == v;
    var a, b := StripPart(k);
    a, b := StripPart(v);
  }

  function Stored(acc: Table, keys: seq<string>, m: Table): Table
    requires forall k :: k in keys ==> k in m
    decreases |keys|
  {
    if keys == [] then acc else Stored(acc[keys[0] := m[keys[0]]], keys[1..], m)
  }

  lemma {:induction false} LoadWritten(acc: Table, keys: seq<string>, m: Table)
    requires (forall k :: k in keys ==> k in m) && CleanTable(m)
    ensures Loaded(Terminated(Lines(keys, m)), acc) == Stored(acc, keys, m)
    decreases |keys|
  {
    if keys != [] {
      var k := keys[0];
      assert k in keys;
      var line, rest := Line(m, k), Terminated(Lines(keys[1..], m));
      assert Lines(keys, m)[1..] == Lines(keys[1..], m);
      var s := Terminated(Lines(keys, m));
      assert s == line + "\n" + rest;
      LineEndLine(line, rest);
      assert s[..|line| + 1] == line + "\n" && s[|line| + 1..] == rest;
      AddWritten(acc, k, m[k]);
      LoadWritten(acc[k := m[k]], keys[1..], m);
    }
  }

  lemma {:induction false} StoredMeaning(acc: Table, keys: seq<string>, m: Table, x: string)
    requires forall k :: k in keys ==> k in m
    ensures x in Stored(acc, keys, m) <==> x in acc || x in keys
    ensures x in Stored(acc, keys, m) ==> Stored(acc, keys, m)[x] == if x in keys then m[x] else acc[x]
    decreases |keys|
  {
    if keys != [] {
      StoredMeaning(acc[keys[0] := m[keys[0]]], keys[1..], m, x);
      assert x in keys <==> x == keys[0] || x in keys[1..];
    }
  }

  /** What is read is always clean. */
  lemma {:induction false} LoadedClean(content: string, acc: Table)
    requires CleanTable(acc)
    ensures CleanTable(Loaded(content, acc))
    decreases |content|
  {
    if content != "" {
      var n := LineEnd(content);
      OneLine(content);
      assert content[..n][..n - 1] == content[..n - 1];
      AddClean(acc, content[..n]);
      LoadedClean(content[n..], AddLine(acc, content[..n]));
    }
  }

  lemma {:induction false} OneLine(s: string)
    requires s != ""
    ensures Unsplit(s[..LineEnd(s) - 1])
    ensures LineEnd(s) < |s| ==> s[LineEnd(s) - 1] in {'\n', '\r'}
  {
    if s[0] != '\n' && s[0] != '\r' && s[1..] != "" {
      OneLine(s[1..]);
      var n := LineEnd(s[1..]);
      assert s[..n] == [s[0]] + s[1..][..n - 1];
    }
  }

  lemma AddClean(acc: Table, raw: string)
    requires CleanTable(acc) && raw != "" && Unsplit(raw[..|raw| - 1])
    ensures CleanTable(AddLine(acc, raw))
  {
    var line := Strip(raw);
    var a, b := StripPart(raw);
    assert Unsplit(line) by {
      LineUnsplit(raw, a, b);
    }
    if line != "" && '=' in line {
      var i := FirstEquals(line);
      PartClean(line, 0, i);
      PartClean(line, i + 1, |line|);
      assert line[0..i] == line[..i] && line[i + 1..|line|] == line[i + 1..];
    }
  }

  lemma SliceOfSlice<T>(s: seq<T>, lo: nat, hi: nat, a: nat, b: nat)
    requires lo <= hi <= |s| && a <= b <= hi - lo
    ensures s[lo..hi][a..b] == s[lo + a..lo + b]
  {
    var mid := s[lo..hi];
    assert forall j :: 0 <= j < |mid| ==> mid[j] == s[lo + j];
    assert forall j :: 0 <= j < b - a ==> mid[a..b][j] == mid[a + j];
  }

  lemma PartClean(line: string, lo: nat, hi: nat)
    requires Unsplit(line) && lo <= hi <= |line|
    ensures Clean(Strip(line[lo..hi]))
    ensures (forall j :: lo <= j < hi ==> line[j] != '=') ==> '=' !in Strip(line[lo..hi])
  {
    var a, b := StripPart(line[lo..hi]);
    SliceOfSlice(line, lo, hi, a, b);
    var part := line[lo + a..lo + b];
    assert forall j :: 0 <= j < |part| ==> part[j] == line[lo + a + j];
  }

  lemma LineUnsplit(raw: string, a: nat, b: nat)
    requires a <= b <= |raw| && raw != "" && Unsplit(raw[..|raw| - 1]) && Trimmed(raw[a..b])
    ensures Unsplit(raw[a..b])
  {
    forall k | a <= k < b
      ensures raw[k] != '\n' && raw[k] != '\r'
    {
      if k < |raw| - 1 {
        assert raw[..|raw| - 1][k] == raw[k];
      } else {
        assert raw[a..b][|raw[a..b]| - 1] == raw[k];
        assert Blank('\n') && Blank('\r');
      }
    }
  }

  /** Saving and loading gives the table back exactly when the table is clean, in whatever order it is saved. */
  lemma {:induction false} StateRoundTrip(keys: seq<string>, m: Table)
    requires forall k :: k in keys <==> k in m
    ensures Loaded(Terminated(Lines(keys, m)), map[]) == m <==> CleanTable(m)
  {
    LoadedClean(Terminated(Lines(keys, m)), map[]);
    if CleanTable(m) {
      LoadWritten(map[], keys, m);
      forall x
        ensures x in Stored(map[], keys, m) <==> x in m
        ensures x in m ==> Stored(map[], keys, m)[x] == m[x]
      {
        StoredMeaning(map[], keys, m, x);
      }
    }
  }
}

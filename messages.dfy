// Messages from the host: a tree with a type, named properties and ordered
// children. Property values are variants (an integer, a boolean or a
// string) converted the way the host library converts them. This module
// decodes the build information, the edit lists, and which builder
// operation each message type reaches.

module Messages {
  import opened Types
  import opened Common

  /** The message types the builder looks at; any other type is `Other`. */
  datatype MessageType =
    | BuildInfo | LiveFileUpdate | LiveFileChanges | LiveFileReset | CleanAllMessage
    | Reload | OpenPreview | LaunchApp | Foreground | Ping | QuitServer
    | Change | CompileUnit | UserFile
    | Other(id: string)

  /** A property value. */
  datatype Var = Int(i: int) | Bool(b: bool) | Text(s: string)

  datatype Tree = Tree(kind: MessageType, props: map<string, Var>, children: seq<Tree>)

  // ---------------------------------------------------------------------------
  // Conversions between integers and text

  predicate IsDigit(c: char)
  {
    '0' <= c <= '9'
  }

  function Digit(d: nat): (c: char)
    requires d < 10
    ensures IsDigit(c) && c as int - '0' as int == d
  {
    ('0' as int + d) as char
  }

  /** Decimal digits of a natural number, most significant first. */
  function NatToString(n: nat): (r: string)
    ensures |r| > 0 && forall i :: 0 <= i < |r| ==> IsDigit(r[i])
  {
    if n < 10 then [Digit(n)] else NatToString(n / 10) + [Digit(n % 10)]
  }

  /** An integer as text: a minus sign for negative values, then the digits. */
  function IntToString(n: int): string
  {
    if n < 0 then "-" + NatToString(-n) else NatToString(n)
  }

  /** The value of a run of digits. */
  function DigitsValue(ds: string): nat
    requires forall i :: 0 <= i < |ds| ==> IsDigit(ds[i])
  {
    if ds == [] then 0
    else
      assert IsDigit(ds[|ds| - 1]);
      DigitsValue(ds[..|ds| - 1]) * 10 + (ds[|ds| - 1] as int - '0' as int)
  }

  /** The longest run of digits a string starts with. */
  function LeadingDigits(s: string): (r: string)
    ensures |r| <= |s| && r == s[..|r|]
    ensures forall i :: 0 <= i < |r| ==> IsDigit(r[i])
    ensures |r| < |s| ==> !IsDigit(s[|r|])
  {
    if s == [] || !IsDigit(s[0]) then [] else [s[0]] + LeadingDigits(s[1..])
  }

  predicate IsWhitespace(c: char)
  {
    c == ' ' || c == '\t' || c == '\n' || c == '\r' || c == '\U{B}' || c == '\U{C}'
  }

  function SkipWhitespace(s: string): (r: string)
    ensures |r| <= |s| && r == s[|s| - |r|..]
    ensures r == [] || !IsWhitespace(r[0])
  {
    if s != [] && IsWhitespace(s[0]) then SkipWhitespace(s[1..]) else s
  }

  /** getIntValue: leading whitespace is skipped, an optional minus sign is
      read, then as many digits as follow; anything else ends the number. */
  function ParseInt(s: string): int
  {
    var t := SkipWhitespace(s);
    if t != [] && t[0] == '-' then -(DigitsValue(LeadingDigits(t[1..])) as int)
    else DigitsValue(LeadingDigits(t))
  }

  /** The digits of a number read back as that number. */
  lemma {:induction false} DigitsOfNat(n: nat)
    ensures DigitsValue(NatToString(n)) == n
    decreases n
  {
    if n >= 10 {
      var s := NatToString(n);
      DigitsOfNat(n / 10);
      assert s[..|s| - 1] == NatToString(n / 10);
    }
  }

  lemma {:induction false} LeadingDigitsOfDigits(s: string)
    requires forall i :: 0 <= i < |s| ==> IsDigit(s[i])
    ensures LeadingDigits(s) == s
    decreases |s|
  {
    if s != [] {
      LeadingDigitsOfDigits(s[1..]);
    }
  }

  /** Reading back an integer written as text gives the integer. */
  lemma IntRoundTrip(n: int)
    ensures ParseInt(IntToString(n)) == n
  {
    var m: nat := if n < 0 then -n else n;
    var ds := NatToString(m);
    DigitsOfNat(m);
    LeadingDigitsOfDigits(ds);
    assert IsDigit(ds[0]);
    if n < 0 {
      var t := ['-'] + ds;
      assert IntToString(n) == t;
      assert !IsWhitespace(t[0]);
      assert SkipWhitespace(t) == t;
      assert t[1..] == ds;
    } else {
      assert IntToString(n) == ds;
      assert !IsWhitespace(ds[0]);
      assert SkipWhitespace(ds) == ds;
    }
  }

  /** A variant as text: integers in decimal, booleans as "1" or "0". */
  function VarToString(v: Var): string
  {
    match v
    case Int(i) => IntToString(i)
    case Bool(b) => if b then "1" else "0"
    case Text(s) => s
  }

  /** A variant as an integer: booleans as 1 or 0, text by getIntValue. */
  function VarToInt(v: Var): int
  {
    match v
    case Int(i) => i
    case Bool(b) => if b then 1 else 0
    case Text(s) => ParseInt(s)
  }

  /** Converting to text and back to an integer gives the integer a variant
      stands for. */
  lemma VarIntThroughText(v: Var)
    requires !v.Text?
    ensures ParseInt(VarToString(v)) == VarToInt(v)
  {
    match v
    case Int(i) => IntRoundTrip(i);
    case Bool(b) => IntRoundTrip(if b then 1 else 0);
  }

  /** A property as text, with a default when it is missing (a missing
      property with no default reads as the empty string). */
  function PropertyString(t: Tree, name: string, default: string): string
  {
    if name in t.props then VarToString(t.props[name]) else default
  }

  /** A property as an integer, with a default when it is missing (a missing
      property with no default reads as 0). */
  function PropertyInt(t: Tree, name: string, default: int): int
  {
    if name in t.props then VarToInt(t.props[name]) else default
  }

  // ---------------------------------------------------------------------------
  // Build information

  /** trim: whitespace removed from both ends. */
  function Trim(s: string): (r: string)
  {
    TrimEnd(SkipWhitespace(s))
  }

  function TrimEnd(s: string): (r: string)
    ensures |r| <= |s| && r == s[..|r|]
    ensures r == [] || !IsWhitespace(r[|r| - 1])
  {
    if s != [] && IsWhitespace(s[|s| - 1]) then TrimEnd(s[..|s| - 1]) else s
  }

  /** The trimmed text is the original without its leading and trailing
      whitespace: it has no whitespace at either end, it sits in the original
      right after the dropped leading part, and everything dropped is
      whitespace. */
  lemma TrimSpec(s: string)
    ensures var r := Trim(s);
            var k := |s| - |SkipWhitespace(s)|;
            && (r == [] || (!IsWhitespace(r[0]) && !IsWhitespace(r[|r| - 1])))
            && k + |r| <= |s| && s[k..k + |r|] == r
            && (forall i :: 0 <= i < k ==> IsWhitespace(s[i]))
            && (forall i :: k + |r| <= i < |s| ==> IsWhitespace(s[i]))
  {
    TrimEnds(s);
    TrimSitsInOriginal(s);
    TrimDropsWhitespace(s);
  }

  lemma TrimEnds(s: string)
    ensures var r := Trim(s);
            r == [] || (!IsWhitespace(r[0]) && !IsWhitespace(r[|r| - 1]))
  {
    var t := SkipWhitespace(s);
    assert Trim(s) == [] || Trim(s)[0] == t[0];
  }

  lemma TrimSitsInOriginal(s: string)
    ensures var r := Trim(s);
            var k := |s| - |SkipWhitespace(s)|;
            k + |r| <= |s| && s[k..k + |r|] == r
  {
    var t := SkipWhitespace(s);
    var r := TrimEnd(t);
    var k := |s| - |t|;
    assert t == s[k..];
    assert r == t[..|r|];
    PrefixOfSuffix(s, k, |r|);
  }

  lemma TrimDropsWhitespace(s: string)
    ensures var r := Trim(s);
            var k := |s| - |SkipWhitespace(s)|;
            && (forall i :: 0 <= i < k ==> IsWhitespace(s[i]))
            && (forall i :: k + |r| <= i < |s| ==> IsWhitespace(s[i]))
  {
    var t := SkipWhitespace(s);
    SkipWhitespaceDrops(s);
    TrimEndDrops(t);
    IndexOfSuffix(s, |s| - |t|);
  }

  /** The first n characters of the suffix from k are the slice from k to
      k + n, and position i of the original is position i - k of the suffix. */
  lemma PrefixOfSuffix(s: string, k: nat, n: nat)
    requires k + n <= |s|
    ensures s[k..][..n] == s[k..k + n]
  {
  }

  /** Position i of the original is position i - k of the suffix from k. */
  lemma IndexOfSuffix(s: string, k: nat)
    requires k <= |s|
    ensures forall i :: k <= i < |s| ==> s[i] == s[k..][i - k]
  {
  }

  /** Trimming twice is trimming once. */
  lemma TrimIdempotent(s: string)
    ensures Trim(Trim(s)) == Trim(s)
  {
    var r := Trim(s);
    TrimSpec(s);
    assert SkipWhitespace(r) == r;
    assert TrimEnd(r) == r;
  }

  lemma {:induction false} SkipWhitespaceDrops(s: string)
    ensures forall i :: 0 <= i < |s| - |SkipWhitespace(s)| ==> IsWhitespace(s[i])
    decreases |s|
  {
    if s != [] && IsWhitespace(s[0]) {
      SkipWhitespaceDrops(s[1..]);
    }
  }

  lemma {:induction false} TrimEndDrops(s: string)
    ensures forall i :: |TrimEnd(s)| <= i < |s| ==> IsWhitespace(s[i])
    decreases |s|
  {
    if s != [] && IsWhitespace(s[|s| - 1]) {
      TrimEndDrops(s[..|s| - 1]);
    }
  }

  /** The settings setBuildInfo reads: each text property trimmed; the defines
      and the extra compiler flags split on single spaces. */
  function SettingsOf(data: Tree): BuildSettings
  {
    BuildSettings(
      Trim(PropertyString(data, "systempath", "")),
      Trim(PropertyString(data, "userpath", "")),
      Tokens(Trim(PropertyString(data, "defines", "")), ' '),
      Tokens(Trim(PropertyString(data, "extraCompilerFlags", "")), ' '),
      Trim(PropertyString(data, "extraDLLs", "")),
      Trim(PropertyString(data, "juceModulesFolder", "")),
      Trim(PropertyString(data, "utilsCppInclude", "")))
  }

  /** Defines given as space-separated words come back as those words: a
      define list joined with single spaces, with no empty define and no
      space or whitespace inside a define, is read back unchanged. */
  lemma DefinesRoundTrip(data: Tree, defines: seq<string>)
    requires defines != []
    requires forall i :: 0 <= i < |defines| ==> defines[i] != []
    requires forall i, j :: 0 <= i < |defines| && 0 <= j < |defines[i]| ==> !IsWhitespace(defines[i][j])
    requires "defines" in data.props && data.props["defines"] == Text(JoinWith(defines, ' '))
    ensures SettingsOf(data).defines == defines
  {
    var s := JoinWith(defines, ' ');
    assert FreeOf(defines, ' ') by {
      forall i | 0 <= i < |defines|
        ensures ' ' !in defines[i]
      {
        assert forall j :: 0 <= j < |defines[i]| ==> defines[i][j] != ' ';
      }
    }
    JoinEnds(defines, ' ');
    TrimUntrimmed(s);
    SplitJoin(defines, ' ');
    assert PropertyString(data, "defines", "") == s;
    assert SettingsOf(data).defines == Tokens(Trim(s), ' ');
  }

  /** Text with no whitespace at either end is its own trim. */
  lemma TrimUntrimmed(s: string)
    requires s != [] && !IsWhitespace(s[0]) && !IsWhitespace(s[|s| - 1])
    ensures Trim(s) == s
  {
    assert SkipWhitespace(s) == s;
    assert TrimEnd(s) == s;
  }

  /** A joined list starts with its first element's first character and ends
      with its last element's last character. */
  lemma {:induction false} JoinEnds(s: seq<string>, sep: char)
    requires s != [] && forall i :: 0 <= i < |s| ==> s[i] != []
    ensures var j := JoinWith(s, sep);
            j != [] && j[0] == s[0][0] && j[|j| - 1] == s[|s| - 1][|s[|s| - 1]| - 1]
    decreases |s|
  {
    if |s| > 1 {
      assert JoinWith(s, sep) == s[0] + [sep] + JoinWith(s[1..], sep);
      if s[1..] != [] {
        JoinEnds(s[1..], sep);
      }
    }
  }

  /** setBuildInfo's registration loop for one kind of child: each child of
      that kind whose file exists is added, unless it is already there. */
  function Register(children: seq<Tree>, kind: MessageType, disk: map<string, string>): seq<string>
  {
    if children == [] then []
    else
      var prev := Register(children[..|children| - 1], kind, disk);
      var c := children[|children| - 1];
      var f := PropertyString(c, "file", "");
      if c.kind == kind && f in disk && f !in prev then prev + [f] else prev
  }

  /** The files of the children of a kind whose file exists, in message
      order, repeats included. */
  function Qualifying(children: seq<Tree>, kind: MessageType, disk: map<string, string>): seq<string>
  {
    if children == [] then []
    else
      var prev := Qualifying(children[..|children| - 1], kind, disk);
      var c := children[|children| - 1];
      var f := PropertyString(c, "file", "");
      if c.kind == kind && f in disk then prev + [f] else prev
  }

  /** The index of the first occurrence of a value. */
  function FirstIndex(s: seq<string>, x: string): (r: nat)
    requires x in s
    ensures r < |s| && s[r] == x && forall k :: 0 <= k < r ==> s[k] != x
  {
    if s[0] == x then 0 else 1 + FirstIndex(s[1..], x)
  }

  /** Registration keeps exactly the existing files named by children of the
      kind, each once, in the order of their first mention. */
  lemma RegisterSpec(children: seq<Tree>, kind: MessageType, disk: map<string, string>)
    ensures var r := Register(children, kind, disk);
            var q := Qualifying(children, kind, disk);
            NoRepeats(r)
            && (forall f :: f in r <==> f in q)
            && (forall f :: f in q ==> f in disk)
            && FirstMentionOrder(r, q)
  {
    RegisterOnce(children, kind, disk);
    RegisterMembers(children, kind, disk);
    RegisterOrdered(children, kind, disk);
  }

  /** No name appears twice. */
  predicate NoRepeats(s: seq<string>)
  {
    forall i, j :: 0 <= i < j < |s| ==> s[i] != s[j]
  }

  /** No file is registered twice. */
  lemma {:induction false} RegisterOnce(children: seq<Tree>, kind: MessageType, disk: map<string, string>)
    ensures NoRepeats(Register(children, kind, disk))
    decreases |children|
  {
    if children != [] {
      var n := |children| - 1;
      RegisterOnce(children[..n], kind, disk);
      var prev := Register(children[..n], kind, disk);
      var f := PropertyString(children[n], "file", "");
      if children[n].kind == kind && f in disk && f !in prev {
        var r := Register(children, kind, disk);
        assert r == prev + [f];
        forall i, j | 0 <= i < j < |r|
          ensures r[i] != r[j]
        {
          assert r[i] == prev[i];
        }
      }
    }
  }

  /** The registered files are the qualifying ones, and those exist. */
  lemma {:induction false} RegisterMembers(children: seq<Tree>, kind: MessageType, disk: map<string, string>)
    ensures forall f :: f in Register(children, kind, disk) <==> f in Qualifying(children, kind, disk)
    ensures forall f :: f in Qualifying(children, kind, disk) ==> f in disk
    decreases |children|
  {
    if children != [] {
      var n := |children| - 1;
      RegisterMembers(children[..n], kind, disk);
      var prev := Register(children[..n], kind, disk);
      var qp := Qualifying(children[..n], kind, disk);
      var f := PropertyString(children[n], "file", "");
      if children[n].kind == kind && f in disk {
        assert Qualifying(children, kind, disk) == qp + [f];
        if f !in prev {
          assert Register(children, kind, disk) == prev + [f];
        } else {
          assert Register(children, kind, disk) == prev;
        }
      }
    }
  }

  /** Each name of r occurs in q, earlier in r only when first mentioned
      earlier in q. */
  predicate FirstMentionOrder(r: seq<string>, q: seq<string>)
  {
    (forall x :: x in r ==> x in q)
    && forall i, j :: 0 <= i < j < |r| ==> FirstIndex(q, r[i]) < FirstIndex(q, r[j])
  }

  /** Registered files keep the order of their first mention. */
  lemma {:induction false} RegisterOrdered(children: seq<Tree>, kind: MessageType, disk: map<string, string>)
    ensures FirstMentionOrder(Register(children, kind, disk), Qualifying(children, kind, disk))
    decreases |children|
  {
    if children != [] {
      var n := |children| - 1;
      RegisterOrdered(children[..n], kind, disk);
      RegisterMembers(children[..n], kind, disk);
      var prev := Register(children[..n], kind, disk);
      var qp := Qualifying(children[..n], kind, disk);
      var f := PropertyString(children[n], "file", "");
      if children[n].kind == kind && f in disk {
        assert Qualifying(children, kind, disk) == qp + [f];
        if f !in prev {
          assert Register(children, kind, disk) == prev + [f];
          OrderAfterAppend(prev, qp, f);
        } else {
          assert Register(children, kind, disk) == prev;
          OrderAfterExtend(prev, qp, f);
        }
      }
    }
  }

  /** Appending an unseen name to both lists keeps first-mention order. */
  lemma OrderAfterAppend(r: seq<string>, q: seq<string>, f: string)
    requires FirstMentionOrder(r, q)
    requires f !in q
    ensures FirstMentionOrder(r + [f], q + [f])
  {
    var r' := r + [f];
    var q' := q + [f];
    FirstIndexAppendAll(q, [f]);
    assert q'[|q|] == f;
    assert FirstIndex(q', f) == |q|;
    forall i, j | 0 <= i < j < |r'|
      ensures FirstIndex(q', r'[i]) < FirstIndex(q', r'[j])
    {
      assert r'[i] == r[i];
      if j < |r| {
        assert r'[j] == r[j];
      }
    }
  }

  /** Extending q alone keeps first-mention order. */
  lemma OrderAfterExtend(r: seq<string>, q: seq<string>, f: string)
    requires FirstMentionOrder(r, q)
    ensures FirstMentionOrder(r, q + [f])
  {
    FirstIndexAppendAll(q, [f]);
  }

  /** First positions in a list are kept when more is appended. */
  lemma FirstIndexAppendAll(a: seq<string>, b: seq<string>)
    ensures forall x :: x in a ==> FirstIndex(a + b, x) == FirstIndex(a, x)
  {
    forall x | x in a
      ensures FirstIndex(a + b, x) == FirstIndex(a, x)
    {
      FirstIndexAppend(a, b, x);
    }
  }

  /** Appending never moves the first position of a name already present. */
  lemma {:induction false} FirstIndexAppend(a: seq<string>, b: seq<string>, x: string)
    requires x in a
    ensures FirstIndex(a + b, x) == FirstIndex(a, x)
    decreases |a|
  {
    if a[0] != x {
      assert (a + b)[1..] == a[1..] + b;
      FirstIndexAppend(a[1..], b, x);
    }
  }

  // ---------------------------------------------------------------------------
  // Dispatch

  /** The builder operation a message reaches, with its arguments. */
  datatype Call =
    | SetBuildInfoCall(data: Tree)
    | FileUpdatedCall(file: string, text: string)
    | FileChangedCall(file: string, changes: seq<LiveCodeChange>)
    | FileResetCall(file: string)
    | CleanAllCall
    | ReloadCall
    | LaunchAppCall
    | ForegroundCall(parentActive: bool)
    | PongCall
    | NoCall

  /** One CHANGE child as an edit: missing positions are 0, missing text is
      empty. */
  function ChangeOf(child: Tree): LiveCodeChange
  {
    LiveCodeChange(PropertyInt(child, "start", 0), PropertyInt(child, "end", 0),
                   PropertyString(child, "text", ""))
  }

  /** The edits of a LIVE_FILE_CHANGES message: its CHANGE children, in order. */
  function ChangesOf(children: seq<Tree>): seq<LiveCodeChange>
  {
    if children == [] then []
    else
      var prev := ChangesOf(children[..|children| - 1]);
      var c := children[|children| - 1];
      if c.kind == Change then prev + [ChangeOf(c)] else prev
  }

  /** projucer_sendMessage: one builder operation per recognised type;
      OPEN_PREVIEW, QUIT_SERVER and anything else reach none. */
  function Dispatch(msg: Tree): Call
  {
    match msg.kind
    case BuildInfo => SetBuildInfoCall(msg)
    case LiveFileUpdate => FileUpdatedCall(PropertyString(msg, "file", ""), PropertyString(msg, "text", ""))
    case LiveFileChanges => FileChangedCall(PropertyString(msg, "file", ""), ChangesOf(msg.children))
    case LiveFileReset => FileResetCall(PropertyString(msg, "file", ""))
    case CleanAllMessage => CleanAllCall
    case Reload => ReloadCall
    case LaunchApp => LaunchAppCall
    case Foreground => ForegroundCall(PropertyInt(msg, "parentActive", 0) == 1)
    case Ping => PongCall
    case _ => NoCall
  }

  /** The message type each builder operation answers. */
  function Answers(c: Call): MessageType
    requires !c.NoCall?
  {
    match c
    case SetBuildInfoCall(_) => BuildInfo
    case FileUpdatedCall(_, _) => LiveFileUpdate
    case FileChangedCall(_, _) => LiveFileChanges
    case FileResetCall(_) => LiveFileReset
    case CleanAllCall => CleanAllMessage
    case ReloadCall => Reload
    case LaunchAppCall => LaunchApp
    case ForegroundCall(_) => Foreground
    case PongCall => Ping
  }

  /** Each recognised message type reaches exactly the operation that answers
      it, and only OPEN_PREVIEW, QUIT_SERVER, the child-only types and unknown
      types reach nothing. So two messages of different types never reach the
      same operation. */
  lemma DispatchTable(msg: Tree)
    ensures Dispatch(msg).NoCall? <==>
      msg.kind in [OpenPreview, QuitServer, Change, CompileUnit, UserFile] || msg.kind.Other?
    ensures !Dispatch(msg).NoCall? ==> Answers(Dispatch(msg)) == msg.kind
  {
  }

  /** LIVE_FILE_UPDATE forwards the message's file and text properties as
      they are; LIVE_FILE_CHANGES forwards the file and the decoded edits. */
  lemma ForwardedArguments(msg: Tree)
    ensures msg.kind == LiveFileUpdate && "file" in msg.props && "text" in msg.props
            && msg.props["file"].Text? && msg.props["text"].Text? ==>
            Dispatch(msg) == FileUpdatedCall(msg.props["file"].s, msg.props["text"].s)
    ensures msg.kind == LiveFileChanges ==>
            Dispatch(msg).changes == ChangesOf(msg.children)
  {
  }

  /** FOREGROUND passes true exactly when parentActive reads as 1; a missing
      property passes false. */
  lemma ForegroundFlag(msg: Tree)
    requires msg.kind == Foreground
    ensures Dispatch(msg).parentActive <==> "parentActive" in msg.props && VarToInt(msg.props["parentActive"]) == 1
  {
  }

  /** The three spellings of "one" all bring the preview to the foreground. */
  lemma ForegroundOnOne(msg: Tree)
    requires msg.kind == Foreground
    requires "parentActive" in msg.props
    requires msg.props["parentActive"] in [Int(1), Bool(true), Text("1")]
    ensures Dispatch(msg).parentActive
  {
    ForegroundFlag(msg);
    var v := msg.props["parentActive"];
    if v.Text? {
      assert v == Text("1");
      IntRoundTrip(1);
      assert IntToString(1) == "1";
      assert VarToInt(v) == ParseInt("1");
    }
  }

  /** The edits are the CHANGE children, in child order, one each; a child
      with no start or end reads position 0 there, and one with no text
      inserts nothing. */
  lemma {:induction false} ChangesOfSpec(a: seq<Tree>, b: seq<Tree>)
    ensures ChangesOf(a + b) == ChangesOf(a) + ChangesOf(b)
    ensures |ChangesOf(a)| == |Kinds(a, Change)|
    ensures forall i :: 0 <= i < |a| && a[i].kind == Change ==> ChangeOf(a[i]) in ChangesOf(a)
    decreases |b|
  {
    if b == [] {
      assert a + b == a;
    } else {
      var b' := b[..|b| - 1];
      assert (a + b)[..|a + b| - 1] == a + b';
      ChangesOfSpec(a, b');
    }
    ChangesOfCount(a);
  }

  /** The children of one kind. */
  function Kinds(children: seq<Tree>, kind: MessageType): seq<Tree>
  {
    if children == [] then []
    else Kinds(children[..|children| - 1], kind)
         + (if children[|children| - 1].kind == kind then [children[|children| - 1]] else [])
  }

  lemma {:induction false} ChangesOfCount(a: seq<Tree>)
    ensures |ChangesOf(a)| == |Kinds(a, Change)|
    ensures forall i :: 0 <= i < |a| && a[i].kind == Change ==> ChangeOf(a[i]) in ChangesOf(a)
    decreases |a|
  {
    if a != [] {
      var n := |a| - 1;
      ChangesOfCount(a[..n]);
      forall i | 0 <= i < |a| && a[i].kind == Change
        ensures ChangeOf(a[i]) in ChangesOf(a)
      {
        if i < n {
          assert a[..n][i] == a[i];
        }
      }
    }
  }

  lemma ChangeDefaults(child: Tree)
    ensures "start" !in child.props ==> ChangeOf(child).start == 0
    ensures "end" !in child.props ==> ChangeOf(child).end == 0
    ensures "text" !in child.props ==> ChangeOf(child).text == ""
    ensures "start" in child.props && child.props["start"].Int? ==> ChangeOf(child).start == child.props["start"].i
  {
  }
}

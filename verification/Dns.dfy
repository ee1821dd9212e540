/** Names in DNS messages: the encoder of the client, which writes labels (section 3.1 of RFC 1035) into a
    question (section 4.1.2), and its decoder, which follows compression pointers (section 4.1.4). */
module Dns {

  const DOT := '.'
  const NUL := '\0'
  const HEADER := 12   // sizeof(struct dns_header)

  /** An octet as a number, and a number, such as a length, as an octet. */
  function Num(c: char): (n: nat) {
    c as int
  }

  function Octet(n: nat): char {
    (n % 256) as char
  }

  // ----- Dotted names and labels

  datatype Labels = Root | More(first: string, rest: Labels)

  /** The labels with dots between them. */
  function Join(ls: Labels): string {
    match ls
    case Root => []
    case More(l, Root) => l
    case More(l, rest) => l + [DOT] + Join(rest)
  }

  /** Each label behind its length octet. */
  function Octets(ls: Labels): string {
    match ls
    case Root => []
    case More(l, rest) => [Octet(|l|)] + l + Octets(rest)
  }

  /** With the root label at the end: section 3.1 of RFC 1035, for lengths that fit the length octet. */
  function Encode(ls: Labels): string {
    Octets(ls) + [NUL]
  }

  predicate NoDot(l: string) {
    forall j | 0 <= j < |l| :: l[j] != DOT
  }

  /** Nonempty labels without dots, of a bounded length. */
  predicate Name(ls: Labels, most: nat) {
    match ls
    case Root => true
    case More(l, rest) => 0 < |l| <= most && NoDot(l) && Name(rest, most)
  }

  /** Where the next token starts, as `strtok` sees it: behind all dots. */
  function SkipDots(s: string, i: nat): (k: nat)
    requires i <= |s|
    ensures i <= k <= |s| && (k < |s| ==> s[k] != DOT)
    ensures forall j | i <= j < k :: s[j] == DOT
    decreases |s| - i
  {
    if i == |s| || s[i] != DOT then i else SkipDots(s, i + 1)
  }

  /** Where it ends: at a dot or at the end. */
  function TokenEnd(s: string, i: nat): (k: nat)
    requires i <= |s|
    ensures i <= k <= |s| && (k < |s| ==> s[k] == DOT)
    ensures forall j | i <= j < k :: s[j] != DOT
    decreases |s| - i
  {
    if i == |s| || s[i] == DOT then i else TokenEnd(s, i + 1)
  }

  /** The tokens of `strtok` from position `i` on. */
  function Tokens(s: string, i: nat): Labels
    requires i <= |s|
    decreases |s| - i
  {
    var a := SkipDots(s, i);
    if a == |s| then Root else
    var b := TokenEnd(s, a);
    More(s[a..b], Tokens(s, b))
  }

  lemma {:induction false} TokenEndIs(s: string, i: nat, b: nat)
    requires i <= b <= |s| && (b < |s| ==> s[b] == DOT) && forall j | i <= j < b :: s[j] != DOT
    ensures TokenEnd(s, i) == b
  {
  }

  /** A token and what is behind it. */
  lemma TokenHere(s: string, a: nat, b: nat)
    requires a < b <= |s| && (b < |s| ==> s[b] == DOT) && forall j | a <= j < b :: s[j] != DOT
    ensures Tokens(s, a) == More(s[a..b], Tokens(s, b))
  {
    TokenEndIs(s, a, b);
    assert SkipDots(s, a) == a;
  }

  lemma TokensPastDot(s: string, b: nat)
    requires b < |s| && s[b] == DOT
    ensures Tokens(s, b) == Tokens(s, b + 1)
  {
    assert SkipDots(s, b) == SkipDots(s, b + 1);
  }

  /** A dotted name in a string: its first label, and the rest behind a dot. */
  lemma JoinParts(s: string, i: nat, l: string, rest: Labels)
    requires i <= |s| && s[i..] == Join(More(l, rest))
    ensures var b := i + |l|;
      && b <= |s| && s[i..b] == l && (rest == Root <==> b == |s|)
      && (b < |s| ==> s[b] == DOT && s[b + 1..] == Join(rest))
    ensures forall j | i <= j < i + |l| :: s[j] == l[j - i]
  {
    var b := i + |l|;
    assert l == s[i..][..|l|] == s[i..b];
    if rest != Root {
      assert s[b] == s[i..][|l|];
      assert s[b + 1..] == s[i..][|l| + 1..];
    }
  }

  /** The labels, with dots between them, are the string from `i` on. */
  ghost predicate Spelled(s: string, i: nat, ls: Labels)
    decreases ls
  {
    match ls
    case Root => i == |s|
    case More(l, rest) =>
      && i + |l| <= |s| && s[i..i + |l|] == l
      && if rest == Root then i + |l| == |s| else i + |l| < |s| && s[i + |l|] == DOT && Spelled(s, i + |l| + 1, rest)
  }

  lemma {:induction false} JoinSpelled(s: string, i: nat, ls: Labels)
    requires i <= |s| && s[i..] == Join(ls)
    ensures Spelled(s, i, ls)
    decreases ls
  {
    match ls
    case Root =>
    case More(l, rest) =>
      JoinParts(s, i, l, rest);
      if rest != Root {
        JoinSpelled(s, i + |l| + 1, rest);
      }
  }

  lemma TokenAt(s: string, a: nat, b: nat, l: string)
    requires a < b <= |s| && (b < |s| ==> s[b] == DOT) && s[a..b] == l && NoDot(l)
    ensures b == |s| ==> Tokens(s, a) == More(l, Root)
    ensures b < |s| ==> Tokens(s, a) == More(l, Tokens(s, b + 1))
  {
    assert forall j | a <= j < b :: s[j] == l[j - a];
    TokenHere(s, a, b);
    if b < |s| {
      TokensPastDot(s, b);
    }
  }

  lemma {:induction false} TokensSpelled(s: string, i: nat, ls: Labels, most: nat)
    requires i <= |s| && Spelled(s, i, ls) && Name(ls, most)
    ensures Tokens(s, i) == ls
    decreases ls
  {
    match ls
    case Root =>
    case More(l, rest) =>
      var b := i + |l|;
      TokenAt(s, i, b, l);
      if rest != Root {
        TokensSpelled(s, b + 1, rest, most);
      }
  }

  /** Tokenizing a dotted name gives its labels back. */
  lemma TokensOfJoin(ls: Labels, most: nat)
    requires Name(ls, most)
    ensures Tokens(Join(ls), 0) == ls
  {
    assert Join(ls)[0..] == Join(ls);
    JoinSpelled(Join(ls), 0, ls);
    TokensSpelled(Join(ls), 0, ls, most);
  }

  /** Encoding takes two bytes more than the dotted name. */
  lemma {:induction false} EncodedLength(ls: Labels)
    ensures |Encode(ls)| == if ls == Root then 1 else |Join(ls)| + 2
    decreases ls
  {
    if ls.More? {
      EncodedLength(ls.rest);
    }
  }

  /** The labels joined are no longer than the string from `i` on, and as long only if they are it. */
  ghost predicate Within(s: string, i: nat, ls: Labels)
    requires i <= |s|
  {
    |Join(ls)| <= |s| - i && (|Join(ls)| == |s| - i ==> Join(ls) == s[i..])
  }

  lemma JoinInside(s: string, i: nat, a: nat, b: nat, rest: Labels)
    requires i <= a < b <= |s|
    requires rest != Root ==> b < |s| && s[b] == DOT && Within(s, b + 1, rest)
    ensures Within(s, i, More(s[a..b], rest))
  {
    if rest != Root {
      assert s[a..] == s[a..b] + [DOT] + s[b + 1..];
    }
  }

  /** The first token and what is behind it. */
  lemma FirstToken(s: string, i: nat) returns (a: nat, b: nat)
    requires i <= |s| && Tokens(s, i) != Root
    ensures i <= a < b <= |s| && Tokens(s, i) == More(s[a..b], Tokens(s, b))
    ensures Tokens(s, b) != Root ==> b < |s| && s[b] == DOT && Tokens(s, b + 1) == Tokens(s, b)
  {
    a := SkipDots(s, i);
    b := TokenEnd(s, a);
    if b < |s| {
      TokensPastDot(s, b);
    }
  }

  lemma {:induction false} JoinOfTokens(s: string, i: nat, ls: Labels)
    requires i <= |s| && ls == Tokens(s, i) && ls != Root
    ensures Within(s, i, ls)
    decreases |s| - i
  {
    var a, b := FirstToken(s, i);
    if ls.rest != Root {
      JoinOfTokens(s, b + 1, ls.rest);
    }
    JoinInside(s, i, a, b, ls.rest);
  }

  /** What `dns_create_question` leaves in memory that held `memory`: the encoded tokens, or nothing new if
      there are none. */
  function QuestionName(hostname: string, memory: string): string {
    var name := Encode(Tokens(hostname, 0));
    if Tokens(hostname, 0) == Root || |name| > |memory| then memory else name + memory[|name|..]
  }

  /** How many bytes of the question name are filled. */
  function FilledBytes(hostname: string): nat {
    if Tokens(hostname, 0) == Root then 0 else |Encode(Tokens(hostname, 0))|
  }

  /** They fit, and fill the name completely exactly if the host name is its own tokens with single dots
      between them; otherwise its last bytes are what the allocation left there. */
  lemma FilledIff(s: string)
    ensures FilledBytes(s) <= |s| + 2
    ensures FilledBytes(s) == |s| + 2 <==> Tokens(s, 0) != Root && s == Join(Tokens(s, 0))
  {
    var ls := Tokens(s, 0);
    if ls != Root {
      EncodedLength(ls);
      JoinOfTokens(s, 0, ls);
      assert s[0..] == s;
    }
  }

  lemma Reassociate(a: string, b: string, c: string)
    ensures a + (b + c) == (a + b) + c
  {
  }

  // ----- Building the request

  /** `memcpy`. */
  method Copy(dst: array<char>, at: nat, src: string)
    requires at + |src| <= dst.Length
    modifies dst
    ensures dst[..] == Spliced(old(dst[..]), at, src)
  {
    forall k | 0 <= k < |src| {
      dst[at + k] := src[k];
    }
    SplicedIs(old(dst[..]), at, src, dst[..]);
  }

  /** `row` with `src` written from `at` on. */
  function Spliced(row: string, at: nat, src: string): string
    requires at + |src| <= |row|
  {
    row[..at] + src + row[at + |src|..]
  }

  lemma SplicedIs(row: string, at: nat, src: string, row': string)
    requires at + |src| <= |row| == |row'|
    requires forall k | 0 <= k < |row| :: row'[k] == if at <= k < at + |src| then src[k - at] else row[k]
    ensures row' == Spliced(row, at, src)
  {
  }

  /** `strtok` from position `i` on. */
  method Strtok(s: string, i: nat) returns (found: bool, a: nat, b: nat)
    requires i <= |s|
    ensures found <==> Tokens(s, i) != Root
    ensures found ==> i <= a < b <= |s| && Tokens(s, i) == More(s[a..b], Tokens(s, b))
    ensures found ==> s[a] != DOT && (b == |s| || s[b] == DOT)
  {
    a := i;
    while a < |s| && s[a] == DOT
      invariant i <= a <= |s| && SkipDots(s, a) == SkipDots(s, i)
    {
      a := a + 1;
    }
    b := a;
    while b < |s| && s[b] != DOT
      invariant a <= b <= |s| && TokenEnd(s, b) == TokenEnd(s, a)
    {
      b := b + 1;
    }
    found := a < |s|;
  }

  /** Memory after `done` has been written into it: a zero follows, once anything is written. */
  function Row(done: string, memory: string): string {
    if done == [] || |done| >= |memory| then memory else done + [NUL] + memory[|done| + 1..]
  }

  /** A label, and a zero behind it over the zero of the label before. */
  lemma RowMore(done: string, piece: string, memory: string)
    requires |done| + |piece| < |memory| && piece != []
    ensures Spliced(Row(done, memory), |done|, piece + [NUL]) == Row(done + piece, memory)
  {
    var row := Row(done, memory);
    assert row[..|done|] == done;
    assert row[|done| + |piece| + 1..] == memory[|done| + |piece| + 1..];
  }

  /** One round of the loop of `dns_create_question`: the length octet, and the token with its terminating
      zero, which the next token overwrites. */
  method WriteLabel(qname: array<char>, token: string, ghost done: string, pos: nat, ghost memory: string)
    requires pos == |done| && pos + 1 + |token| < qname.Length == |memory| && qname[..] == Row(done, memory)
    modifies qname
    ensures qname[..] == Row(done + ([Octet(|token|)] + token), memory)
  {
    ghost var row := qname[..];
    qname[pos] := Octet(|token|);
    Copy(qname, pos + 1, token + [NUL]);
    SpliceTwice(row, pos, Octet(|token|), token + [NUL], qname[..]);
    Reassociate([Octet(|token|)], token, [NUL]);
    RowMore(done, [Octet(|token|)] + token, memory);
  }

  lemma SpliceTwice(row: string, pos: nat, c: char, src: string, row': string)
    requires pos + 1 + |src| <= |row| && row' == Spliced(row[pos := c], pos + 1, src)
    ensures row' == Spliced(row, pos, [c] + src)
  {
  }

  /** The next label in front of the others. */
  lemma OctetsMore(done: string, todo: Labels, all: string)
    requires todo.More? && done + Octets(todo) == all
    ensures done + ([Octet(|todo.first|)] + todo.first) + Octets(todo.rest) == all
  {
    Reassociate(done, [Octet(|todo.first|)] + todo.first, Octets(todo.rest));
  }

  /** The loop of `dns_create_question` over the tokens. */
  method WriteLabels(qname: array<char>, hostname: string, ghost ls: Labels, ghost memory: string)
    requires qname.Length == |hostname| + 2 && ls == Tokens(hostname, 0) && qname[..] == memory
    modifies qname
    ensures |Octets(ls)| < |memory| && qname[..] == Row(Octets(ls), memory)
  {
    ghost var todo, done, all := ls, "", Octets(ls);
    var pos := 0;
    var found, a, b := Strtok(hostname, 0);
    while found
      invariant pos == |done| <= |hostname| + 1 && found == (todo != Root)
      invariant found ==> pos <= a < b <= |hostname| && (b == |hostname| || hostname[b] == DOT)
      invariant found ==> todo == More(hostname[a..b], Tokens(hostname, b))
      invariant done + Octets(todo) == all
      invariant qname[..] == Row(done, memory)
      decreases todo
    {
      OctetsMore(done, todo, all);
      var token := hostname[a..b];
      WriteLabel(qname, token, done, pos, memory);
      done, todo := done + ([Octet(|token|)] + token), todo.rest;
      pos := pos + 1 + |token|;
      found, a, b := Strtok(hostname, b);
    }
    assert done == done + Octets(todo);
  }

  /** `dns_create_question`: the name part of the question; `memory` is what the allocation happens to
      hold. */
  method CreateQuestion(hostname: string, memory: string) returns (qname: array<char>)
    requires |memory| == |hostname| + 2
    ensures fresh(qname) && qname[..] == QuestionName(hostname, memory)
  {
    qname := new char[|memory|](i requires 0 <= i < |memory| => memory[i]);
    assert qname[..] == memory;
    WriteLabels(qname, hostname, Tokens(hostname, 0), memory);
  }

  // ----- Parsing a name

  /** `is_pointer`: both top bits set. */
  predicate IsPointer(c: char) {
    Num(c) / 64 == 3
  }

  /** The way a parser goes through a message: over labels and along pointers to a zero octet. */
  datatype Way = Stop | Label(next: Way) | Pointer(next: Way)

  function Steps(way: Way): nat {
    if way == Stop then 0 else 1 + Steps(way.next)
  }

  /** The parser goes this way from offset `p`, and stays within the message. It takes the second octet of a
      pointer for its target, and any other octet for a length. */
  ghost predicate Goes(msg: string, p: nat, way: Way)
    decreases way
  {
    p < |msg| &&
    match way
    case Stop => msg[p] == NUL
    case Label(next) => msg[p] != NUL && !IsPointer(msg[p]) && Goes(msg, p + 1 + Num(msg[p]), next)
    case Pointer(next) => IsPointer(msg[p]) && p + 1 < |msg| && Goes(msg, Num(msg[p + 1]), next)
  }

  /** What the parser writes for a label: a dot follows every label but one before a zero octet. */
  function LabelWritten(msg: string, p: nat): string
    requires p < |msg| && p + 1 + Num(msg[p]) < |msg|
  {
    msg[p + 1..p + 1 + Num(msg[p])] + if msg[p + 1 + Num(msg[p])] != NUL then [DOT] else []
  }

  ghost function Written(msg: string, p: nat, way: Way): string
    requires Goes(msg, p, way)
    decreases way
  {
    match way
    case Stop => []
    case Label(next) =>
      assert Goes(msg, p + 1 + Num(msg[p]), next);
      LabelWritten(msg, p) + Written(msg, p + 1 + Num(msg[p]), next)
    case Pointer(next) => Written(msg, Num(msg[p + 1]), next)
  }

  /** There is no other way. */
  lemma {:induction false} OneWay(msg: string, p: nat, v: Way, w: Way)
    requires Goes(msg, p, v) && Goes(msg, p, w)
    ensures v == w
    decreases v
  {
    match v
    case Stop =>
    case Label(next) => OneWay(msg, p + 1 + Num(msg[p]), next, w.next);
    case Pointer(next) => OneWay(msg, Num(msg[p + 1]), next, w.next);
  }

  /** Writing on behind what has been written. */
  lemma SpliceMore(out: string, at: nat, done: string, more: string)
    requires at + |done + more| <= |out|
    ensures Spliced(Spliced(out, at, done), at + |done|, more) == Spliced(out, at, done + more)
  {
  }

  /** A label, and the dot behind it. */
  method CopyLabel(msg: string, ptr: nat, out: array<char>, len: nat) returns (pos: nat, next: nat)
    requires ptr < |msg| && ptr + 1 + Num(msg[ptr]) < |msg| && len + |LabelWritten(msg, ptr)| <= out.Length
    modifies out
    ensures pos == len + |LabelWritten(msg, ptr)| && next == ptr + 1 + Num(msg[ptr])
    ensures out[..] == Spliced(old(out[..]), len, LabelWritten(msg, ptr))
  {
    var flag := Num(msg[ptr]);
    next := ptr + 1;
    ghost var piece := msg[next..next + flag];
    Copy(out, len, msg[next..next + flag]);
    pos, next := len + flag, next + flag;
    if msg[next] != NUL {
      Copy(out, pos, [DOT]);
      pos := pos + 1;
      SpliceMore(old(out[..]), len, piece, [DOT]);
      assert LabelWritten(msg, ptr) == piece + [DOT];
    } else {
      assert piece + [] == piece;
    }
  }

  /** The same behind what has been written from `at` on. */
  method AppendLabel(msg: string, ptr: nat, out: array<char>, len: nat, ghost row: string, ghost at: nat,
                     ghost done: string)
      returns (pos: nat, next: nat)
    requires ptr < |msg| && ptr + 1 + Num(msg[ptr]) < |msg| && len == at + |done|
    requires at + |done + LabelWritten(msg, ptr)| <= |row| == out.Length && out[..] == Spliced(row, at, done)
    modifies out
    ensures pos == at + |done + LabelWritten(msg, ptr)| && next == ptr + 1 + Num(msg[ptr])
    ensures out[..] == Spliced(row, at, done + LabelWritten(msg, ptr))
  {
    pos, next := CopyLabel(msg, ptr, out, len);
    SpliceMore(row, at, done, LabelWritten(msg, ptr));
  }

  /** `dns_parse_name` from `start` on, appending to the first `len` bytes of `out`. */
  method ParseName(msg: string, start: nat, out: array<char>, len: nat, ghost way: Way) returns (total: nat)
    requires Goes(msg, start, way) && len + |Written(msg, start, way)| <= out.Length
    modifies out
    ensures total == len + |Written(msg, start, way)|
    ensures out[..] == Spliced(old(out[..]), len, Written(msg, start, way))
    decreases Steps(way)
  {
    ghost var row, done, left, text := out[..], "", way, Written(msg, start, way);
    var ptr: nat := start;
    total := len;
    while msg[ptr] != NUL
      invariant Goes(msg, ptr, left) && done + Written(msg, ptr, left) == text
      invariant Steps(left) <= Steps(way)
      invariant total == len + |done| && out[..] == Spliced(row, len, done)
      decreases Steps(left)
    {
      if IsPointer(msg[ptr]) {
        AtPointer(msg, ptr, left.next);
        ptr, left := Num(msg[ptr + 1]), left.next;
        total := ParseName(msg, ptr, out, total, left);
        SpliceMore(row, len, done, Written(msg, ptr, left));
        return;
      }
      ghost var more := WrittenMore(msg, ptr, left.next, done, text);
      total, ptr := AppendLabel(msg, ptr, out, total, row, len, done);
      done, left := more, left.next;
    }
    assert done + [] == done;
  }

  /** The next label in front of what is still to be written. */
  lemma WrittenMore(msg: string, p: nat, next: Way, done: string, text: string) returns (more: string)
    requires Goes(msg, p, Label(next)) && done + Written(msg, p, Label(next)) == text
    ensures p + 1 + Num(msg[p]) < |msg| && Goes(msg, p + 1 + Num(msg[p]), next)
    ensures more == done + LabelWritten(msg, p) && more + Written(msg, p + 1 + Num(msg[p]), next) == text
  {
    more := done + LabelWritten(msg, p);
    AtLabel(msg, p, next);
    Reassociate(done, LabelWritten(msg, p), Written(msg, p + 1 + Num(msg[p]), next));
  }

  lemma AtPointer(msg: string, p: nat, next: Way)
    requires Goes(msg, p, Pointer(next))
    ensures p + 1 < |msg| && Goes(msg, Num(msg[p + 1]), next)
    ensures Written(msg, p, Pointer(next)) == Written(msg, Num(msg[p + 1]), next)
  {
  }

  lemma AtLabel(msg: string, p: nat, next: Way)
    requires Goes(msg, p, Label(next))
    ensures p + 1 + Num(msg[p]) < |msg| && Goes(msg, p + 1 + Num(msg[p]), next)
    ensures Written(msg, p, Label(next)) == LabelWritten(msg, p) + Written(msg, p + 1 + Num(msg[p]), next)
  {
  }

  // ----- What the parser means: section 4.1.4 of RFC 1035

  /** The offset in a pointer: the lower 14 bits of its two octets. */
  function Target(c: char, d: char): nat {
    Num(c) % 64 * 256 + Num(d)
  }

  /** The way through a message that the RFC prescribes: labels of at most 63 octets, and pointers. */
  ghost predicate Conforms(msg: string, p: nat, way: Way)
    decreases way
  {
    p < |msg| &&
    match way
    case Stop => msg[p] == NUL
    case Label(next) => 0 < Num(msg[p]) < 64 && Conforms(msg, p + 1 + Num(msg[p]), next)
    case Pointer(next) => IsPointer(msg[p]) && p + 1 < |msg| && Conforms(msg, Target(msg[p], msg[p + 1]), next)
  }

  /** The name that stands at an offset: its labels, those of the name pointed to included. */
  ghost function Expansion(msg: string, p: nat, way: Way): Labels
    requires Conforms(msg, p, way)
    decreases way
  {
    match way
    case Stop => Root
    case Label(next) =>
      var n := p + 1 + Num(msg[p]);
      assert Conforms(msg, n, next);
      More(msg[p + 1..n], Expansion(msg, n, next))
    case Pointer(next) => Expansion(msg, Target(msg[p], msg[p + 1]), next)
  }

  /** All pointers on the way are to offsets below 256. */
  ghost predicate Low(msg: string, p: nat, way: Way)
    requires Conforms(msg, p, way)
    decreases way
  {
    match way
    case Stop => true
    case Label(next) => Low(msg, p + 1 + Num(msg[p]), next)
    case Pointer(next) => Target(msg[p], msg[p + 1]) < 256 && Low(msg, Target(msg[p], msg[p + 1]), next)
  }

  /** The second octet is the target exactly if the lower six bits of the first are zero. */
  lemma TargetIff(c: char, d: char)
    requires IsPointer(c) && Num(c) < 256 && Num(d) < 256
    ensures Num(d) == Target(c, d) <==> Num(c) == 192
    ensures Target(c, d) < 256 <==> Num(c) == 192
  {
  }

  predicate IsOctets(msg: string) {
    forall i | 0 <= i < |msg| :: Num(msg[i]) < 256
  }

  /** The parser follows every pointer on the prescribed way to where it leads. */
  ghost predicate Faithful(msg: string, p: nat, way: Way)
    requires Conforms(msg, p, way)
    decreases way
  {
    match way
    case Stop => true
    case Label(next) => Faithful(msg, p + 1 + Num(msg[p]), next)
    case Pointer(next) =>
      Num(msg[p + 1]) == Target(msg[p], msg[p + 1]) && Faithful(msg, Target(msg[p], msg[p + 1]), next)
  }

  /** It does so exactly if no pointer on the way leads to an offset of 256 or more. */
  lemma {:induction false} FaithfulIff(msg: string, p: nat, way: Way)
    requires IsOctets(msg) && Conforms(msg, p, way)
    ensures Faithful(msg, p, way) <==> Low(msg, p, way)
    decreases way
  {
    match way
    case Stop =>
    case Label(next) => FaithfulIff(msg, p + 1 + Num(msg[p]), next);
    case Pointer(next) =>
      TargetIff(msg[p], msg[p + 1]);
      FaithfulIff(msg, Target(msg[p], msg[p + 1]), next);
  }

  /** At offset 10 a pointer to 256, where the label `a` stands. */
  function Misleading(): string {
    seq(259, i => if i == 10 then 193 as char else if i == 256 then Octet(1) else if i == 257 then 'a' else NUL)
  }

  /** The parser follows the pointer to offset 0: the name is `a`, and nothing is written. */
  lemma Misread()
    ensures var msg, way := Misleading(), Pointer(Label(Stop));
      && IsOctets(msg) && Conforms(msg, 10, way) && Expansion(msg, 10, way) == More("a", Root) && !Low(msg, 10, way)
      && Goes(msg, 10, Pointer(Stop)) && Written(msg, 10, Pointer(Stop)) == [] != Join(More("a", Root))
  {
    var msg := Misleading();
    assert Target(msg[10], msg[11]) == 256;
    assert Conforms(msg, 258, Stop);
    assert Conforms(msg, 256, Label(Stop));
    assert msg[257..258] == "a";
    assert Expansion(msg, 256, Label(Stop)) == More("a", Root);
    assert Goes(msg, 0, Stop);
  }

  predicate OnlyPointers(way: Way) {
    match way
    case Stop => true
    case Label(_) => false
    case Pointer(next) => OnlyPointers(next)
  }

  /** The last label is followed by a pointer to the root. */
  predicate Dangling(way: Way) {
    match way
    case Stop => false
    case Label(next) => if next.Pointer? && OnlyPointers(next) then true else Dangling(next)
    case Pointer(next) => Dangling(next)
  }

  lemma {:induction false} RootIff(msg: string, p: nat, way: Way)
    requires Conforms(msg, p, way)
    ensures Expansion(msg, p, way) == Root <==> OnlyPointers(way)
    ensures OnlyPointers(way) ==> !Dangling(way)
    decreases way
  {
    if way.Pointer? {
      RootIff(msg, Target(msg[p], msg[p + 1]), way.next);
    }
  }

  /** On messages that conform, with pointers below 256, the parser goes the prescribed way and writes the
      dotted name, with a dot too many exactly if the last label is followed by a pointer to the root. */
  lemma {:induction false} ParseExpands(msg: string, p: nat, way: Way)
    requires Conforms(msg, p, way) && Low(msg, p, way)
    ensures Goes(msg, p, way)
    ensures Written(msg, p, way) == Spelling(Expansion(msg, p, way), Dangling(way))
    decreases way
  {
    match way
    case Stop =>
    case Label(next) =>
      ParseExpands(msg, p + 1 + Num(msg[p]), next);
      LabelExpands(msg, p, next);
    case Pointer(next) =>
      ParseExpands(msg, Target(msg[p], msg[p + 1]), next);
      PointerExpands(msg, p, next);
  }

  lemma LowTarget(c: char, d: char)
    requires Target(c, d) < 256
    ensures Num(d) == Target(c, d)
  {
  }

  lemma PointerExpands(msg: string, p: nat, next: Way)
    requires Conforms(msg, p, Pointer(next)) && Low(msg, p, Pointer(next))
    requires Goes(msg, Target(msg[p], msg[p + 1]), next)
    ensures Goes(msg, p, Pointer(next))
    ensures Written(msg, p, Pointer(next)) == Written(msg, Target(msg[p], msg[p + 1]), next)
  {
    LowTarget(msg[p], msg[p + 1]);
  }

  function Spelling(ls: Labels, dangling: bool): string {
    Join(ls) + if dangling then [DOT] else []
  }

  lemma LabelExpands(msg: string, p: nat, next: Way)
    requires Conforms(msg, p, Label(next)) && Goes(msg, p + 1 + Num(msg[p]), next)
    requires Written(msg, p + 1 + Num(msg[p]), next)
          == Spelling(Expansion(msg, p + 1 + Num(msg[p]), next), Dangling(next))
    ensures Goes(msg, p, Label(next))
    ensures Written(msg, p, Label(next)) == Spelling(Expansion(msg, p, Label(next)), Dangling(Label(next)))
  {
    var n := p + 1 + Num(msg[p]);
    var rest := Expansion(msg, n, next);
    RootIff(msg, n, next);
    AtLabel(msg, p, next);
    assert msg[n] != NUL <==> !next.Stop?;
    LabelSpelled(msg[p + 1..n], rest, next);
  }

  lemma LabelSpelled(l: string, rest: Labels, next: Way)
    requires rest == Root <==> OnlyPointers(next)
    requires OnlyPointers(next) ==> !Dangling(next)
    ensures l + (if next.Stop? then [] else [DOT]) + Spelling(rest, Dangling(next)) ==
      Spelling(More(l, rest), Dangling(Label(next)))
  {
    JoinMore(l, rest);
  }

  /** Every pointer leads to before the start of the name it ends. */
  ghost predicate Backward(msg: string, start: nat, p: nat)
    decreases start, |msg| - p
  {
    p < |msg| &&
    if msg[p] == NUL then true
    else if IsPointer(msg[p]) then
      p + 1 < |msg| && Num(msg[p + 1]) < start && Backward(msg, Num(msg[p + 1]), Num(msg[p + 1]))
    else Backward(msg, start, p + 1 + Num(msg[p]))
  }

  /** Then the parser ends, within the message. */
  lemma {:induction false} BackwardGoes(msg: string, start: nat, p: nat) returns (way: Way)
    requires Backward(msg, start, p)
    ensures Goes(msg, p, way)
    decreases start, |msg| - p
  {
    if msg[p] == NUL {
      way := Stop;
    } else if IsPointer(msg[p]) {
      var next := BackwardGoes(msg, Num(msg[p + 1]), Num(msg[p + 1]));
      way := Pointer(next);
    } else {
      var next := BackwardGoes(msg, start, p + 1 + Num(msg[p]));
      way := Label(next);
    }
  }

  /** What can be checked of a message: labels below 64 octets, and pointers with the first octet 192 to
      before the start of the name they end. */
  ghost predicate Plain(msg: string, start: nat, p: nat)
    decreases start, |msg| - p
  {
    p < |msg| &&
    if msg[p] == NUL then true
    else if Num(msg[p]) == 192 then
      p + 1 < |msg| && Num(msg[p + 1]) < start && Plain(msg, Num(msg[p + 1]), Num(msg[p + 1]))
    else Num(msg[p]) < 64 && Plain(msg, start, p + 1 + Num(msg[p]))
  }

  /** Such a message conforms, and the parser ends on it with the name it holds. */
  lemma PlainParses(msg: string, start: nat, p: nat) returns (way: Way)
    requires IsOctets(msg) && Plain(msg, start, p)
    ensures Conforms(msg, p, way) && Goes(msg, p, way)
    ensures Written(msg, p, way) == Spelling(Expansion(msg, p, way), Dangling(way))
  {
    way := PlainConforms(msg, start, p);
    ParseExpands(msg, p, way);
  }

  lemma {:induction false} PlainConforms(msg: string, start: nat, p: nat) returns (way: Way)
    requires IsOctets(msg) && Plain(msg, start, p)
    ensures Conforms(msg, p, way) && Low(msg, p, way)
    decreases start, |msg| - p
  {
    if msg[p] == NUL {
      way := Stop;
    } else if Num(msg[p]) == 192 {
      TargetIff(msg[p], msg[p + 1]);
      var next := PlainConforms(msg, Num(msg[p + 1]), Num(msg[p + 1]));
      way := Pointer(next);
    } else {
      var next := PlainConforms(msg, start, p + 1 + Num(msg[p]));
      way := Label(next);
    }
  }

  /** A pointer to itself has no way through. */
  lemma {:induction false} LoopNever(msg: string, p: nat, way: Way)
    requires p + 1 < |msg| && IsPointer(msg[p]) && Num(msg[p + 1]) == p
    ensures !Goes(msg, p, way)
    decreases way
  {
    if way.Pointer? {
      LoopNever(msg, p, way.next);
    }
  }

  // ----- Encoded names in messages

  /** The encoded labels stand at offset `p`. */
  ghost predicate Laid(msg: string, p: nat, ls: Labels)
    decreases ls
  {
    match ls
    case Root => p < |msg| && msg[p] == NUL
    case More(l, rest) =>
      && p + 1 + |l| < |msg| && msg[p] == Octet(|l|) && msg[p + 1..p + 1 + |l|] == l && Laid(msg, p + 1 + |l|, rest)
  }

  lemma {:induction false} EncodeLaid(msg: string, p: nat, ls: Labels)
    requires p + |Encode(ls)| <= |msg| && msg[p..p + |Encode(ls)|] == Encode(ls)
    ensures Laid(msg, p, ls)
    decreases ls
  {
    match ls
    case Root => assert msg[p] == msg[p..p + 1][0];
    case More(l, rest) =>
      LaidParts(msg, p, l, Encode(rest));
      EncodeLaid(msg, p + 1 + |l|, rest);
  }

  lemma LaidParts(msg: string, p: nat, l: string, rest: string)
    requires p + |[Octet(|l|)] + l + rest| <= |msg| && rest != []
    requires msg[p..p + |[Octet(|l|)] + l + rest|] == [Octet(|l|)] + l + rest
    ensures var n := p + 1 + |l|;
      n < |msg| && msg[p] == Octet(|l|) && msg[p + 1..n] == l && n + |rest| <= |msg| && msg[n..n + |rest|] == rest
  {
    var all := [Octet(|l|)] + l + rest;
    var n := p + 1 + |l|;
    assert msg[p] == all[0];
    forall j | 0 <= j < |l|
      ensures msg[p + 1..n][j] == l[j]
    {
      assert msg[p..p + |all|][j + 1] == all[j + 1];
    }
    forall j | 0 <= j < |rest|
      ensures msg[n..n + |rest|][j] == rest[j]
    {
      assert msg[p..p + |all|][j + 1 + |l|] == all[j + 1 + |l|];
    }
  }

  /** The parser's way over encoded labels. */
  function WayOver(ls: Labels): Way {
    match ls
    case Root => Stop
    case More(_, rest) => Label(WayOver(rest))
  }

  lemma OctetNum(n: nat)
    ensures Num(Octet(n)) == n % 256
  {
  }

  /** What the parser reads of an encoded label that is not too long. */
  lemma ReadLabel(msg: string, p: nat, l: string, rest: Labels)
    requires Laid(msg, p, More(l, rest)) && 0 < |l| <= 191
    ensures msg[p] != NUL && !IsPointer(msg[p]) && Num(msg[p]) == |l|
    ensures LabelWritten(msg, p) == l + if msg[p + 1 + |l|] != NUL then [DOT] else []
  {
    OctetNum(|l|);
  }

  /** A zero octet behind a label is the root, or the length octet of a label of a multiple of 256 bytes. */
  lemma ReadNext(msg: string, p: nat, rest: Labels)
    requires Laid(msg, p, rest)
    ensures msg[p] == NUL <==> rest == Root || |rest.first| % 256 == 0
  {
    if rest.More? {
      OctetNum(|rest.first|);
    }
  }

  lemma JoinMore(l: string, rest: Labels)
    ensures Join(More(l, rest)) == l + (if rest != Root then [DOT] else []) + Join(rest)
  {
    if rest == Root {
      assert l + [] == l;
    }
  }

  /** Parsing what was encoded gives the dotted name back, if no label is so long that its length octet reads
      as a pointer. */
  lemma {:induction false} RoundTrip(msg: string, p: nat, ls: Labels)
    requires Laid(msg, p, ls) && Name(ls, 191)
    ensures Goes(msg, p, WayOver(ls)) && Written(msg, p, WayOver(ls)) == Join(ls)
    decreases ls
  {
    match ls
    case Root =>
    case More(l, rest) =>
      RoundTrip(msg, p + 1 + |l|, rest);
      ReadLabel(msg, p, l, rest);
      ReadNext(msg, p + 1 + |l|, rest);
      JoinMore(l, rest);
  }

  /** A dot among any 192 bytes in a row. */
  ghost predicate Dotted(s: string) {
    forall i | 0 <= i <= |s| - 192 :: DotAmong(s, i)
  }

  ghost predicate DotAmong(s: string, i: nat)
    requires i + 192 <= |s|
  {
    exists j :: i <= j < i + 192 && s[j] == DOT
  }

  lemma DottedMore(l: string, rest: string)
    requires |l| <= 191 && Dotted(rest)
    ensures Dotted(l + [DOT] + rest)
  {
    var s := l + [DOT] + rest;
    forall i | 0 <= i <= |s| - 192
      ensures DotAmong(s, i)
    {
      if i <= |l| {
        assert s[|l|] == DOT;
      } else {
        var k := i - |l| - 1;
        assert DotAmong(rest, k);
        var j :| k <= j < k + 192 && rest[j] == DOT;
        assert s[j + |l| + 1] == rest[j];
      }
    }
  }

  /** Whatever the parser writes is of that kind, wherever it starts. */
  lemma {:induction false} WrittenDotted(msg: string, p: nat, way: Way)
    requires IsOctets(msg) && Goes(msg, p, way)
    ensures Dotted(Written(msg, p, way))
    decreases way
  {
    match way
    case Stop =>
    case Label(next) =>
      var n := p + 1 + Num(msg[p]);
      AtLabel(msg, p, next);
      WrittenDotted(msg, n, next);
      if msg[n] != NUL {
        DottedMore(msg[p + 1..n], Written(msg, n, next));
      }
    case Pointer(next) =>
      AtPointer(msg, p, next);
      WrittenDotted(msg, Num(msg[p + 1]), next);
  }

  /** The tokens of such a text have at most 191 bytes. */
  lemma {:induction false} DottedTokens(s: string, i: nat)
    requires i <= |s| && Dotted(s)
    ensures Name(Tokens(s, i), 191)
    decreases |s| - i
  {
    var a := SkipDots(s, i);
    if a < |s| {
      var b := TokenEnd(s, a);
      assert b - a >= 192 ==> DotAmong(s, a);
      DottedTokens(s, b);
    }
  }

  /** The text the parser writes for the encoded tokens of a host name is the host name if and only if no
      token has more than 191 bytes and the host name is its tokens with single dots between them. From 192
      on a length octet reads as a pointer, from 256 on it is the length modulo 256; whatever the parser does
      then, it does not write the host name. */
  lemma HostIff(msg: string, p: nat, hostname: string)
    requires IsOctets(msg) && Laid(msg, p, Tokens(hostname, 0))
    ensures (exists way :: Goes(msg, p, way) && Written(msg, p, way) == hostname) <==>
      Name(Tokens(hostname, 0), 191) && hostname == Join(Tokens(hostname, 0))
  {
    var ls := Tokens(hostname, 0);
    if Name(ls, 191) {
      RoundTrip(msg, p, ls);
    }
    if way :| Goes(msg, p, way) && Written(msg, p, way) == hostname {
      WrittenDotted(msg, p, way);
      DottedTokens(hostname, 0);
      RoundTrip(msg, p, ls);
      OneWay(msg, p, way, WayOver(ls));
    }
  }

  /** In particular a dotted name comes back if and only if every label has at most 191 bytes. */
  lemma RoundTripIff(msg: string, p: nat, ls: Labels, most: nat)
    requires IsOctets(msg) && Laid(msg, p, ls) && Name(ls, most)
    ensures (exists way :: Goes(msg, p, way) && Written(msg, p, way) == Join(ls)) <==> Name(ls, 191)
  {
    TokensOfJoin(ls, most);
    HostIff(msg, p, Join(ls));
  }

  /** A label of a multiple of 256 bytes is encoded with the length octet 0, and reads as the root. */
  lemma LongLabel(l: string, rest: Labels, msg: string, p: nat)
    requires l != [] && |l| % 256 == 0 && Laid(msg, p, More(l, rest))
    ensures Goes(msg, p, Stop) && Written(msg, p, Stop) == [] != Join(More(l, rest))
  {
    OctetNum(|l|);
    JoinMore(l, rest);
  }

  // ----- The request, and skipping its question

  /** `dns_create_header`, in the order of the bytes: the random identifier, the flag for recursion, one
      question. */
  function Header(id0: char, id1: char): (h: string)
    ensures |h| == HEADER
  {
    [id0, id1, Octet(1), NUL, NUL, Octet(1), NUL, NUL, NUL, NUL, NUL, NUL]
  }

  /** Type and class of the question, both 1. */
  const TYPE_AND_CLASS := [NUL, Octet(1), NUL, Octet(1)]

  /** `dns_build_request`. */
  method BuildRequest(header: string, qname: array<char>, request: array<char>) returns (length: nat)
    requires |header| == HEADER && request != qname && request.Length >= HEADER + qname.Length + 4
    modifies request
    ensures length == HEADER + qname.Length + 4
    ensures request[..] == header + qname[..] + TYPE_AND_CLASS + old(request[length..])
  {
    ghost var row := request[..];
    Copy(request, 0, header);
    Copy(request, HEADER, qname[..]);
    Copy(request, HEADER + qname.Length, TYPE_AND_CLASS);
    length := HEADER + qname.Length + 4;
    SpliceRow(row, [], header, Spliced(row, 0, header));
    SpliceRow(Spliced(row, 0, header), header, qname[..], Spliced(Spliced(row, 0, header), HEADER, qname[..]));
    SpliceRow(Spliced(Spliced(row, 0, header), HEADER, qname[..]), header + qname[..], TYPE_AND_CLASS, request[..]);
  }

  /** Writing behind what is written already. */
  lemma SpliceRow(row: string, front: string, src: string, row': string)
    requires |front| + |src| <= |row| && front == row[..|front|] && row' == Spliced(row, |front|, src)
    ensures row' == front + src + row[|front| + |src|..]
    ensures |row'| == |row| && row'[..|front + src|] == front + src
    ensures forall n | |front + src| <= n <= |row| :: row'[n..] == row[n..]
  {
  }

  /** The questions of a message, one behind the other. */
  datatype Questions = Done | Question(name: Labels, more: Questions)

  ghost function Count(qs: Questions): nat {
    match qs
    case Done => 0
    case Question(_, more) => 1 + Count(more)
  }

  /** Where the questions end. */
  ghost function End(p: nat, qs: Questions): nat
    decreases qs
  {
    match qs
    case Done => p
    case Question(ls, more) => End(p + |Encode(ls)| + 4, more)
  }

  /** Nonempty labels of any octets, of a length that fits the length octet. */
  predicate Sized(ls: Labels) {
    ls.More? ==> 0 < |ls.first| <= 255 && Sized(ls.rest)
  }

  ghost predicate QuestionsAt(msg: string, p: nat, qs: Questions)
    decreases qs
  {
    match qs
    case Done => true
    case Question(ls, more) => Laid(msg, p, ls) && Sized(ls) && QuestionsAt(msg, p + |Encode(ls)| + 4, more)
  }

  /** A number of two octets in network byte order. */
  function Word(msg: string, p: nat): nat
    requires p + 1 < |msg|
  {
    Num(msg[p]) * 256 + Num(msg[p + 1])
  }

  /** The inner loop that skips a name: here any octet is a length, a pointer's too. */
  method SkipName(msg: string, p: nat, ghost ls: Labels) returns (ptr: nat)
    requires Laid(msg, p, ls) && Sized(ls)
    ensures ptr == p + |Encode(ls)|
  {
    ptr := p;
    ghost var left := ls;
    while true
      invariant Laid(msg, ptr, left) && Sized(left) && ptr + |Encode(left)| == p + |Encode(ls)|
      decreases left
    {
      var flag := Num(msg[ptr]);
      ptr := ptr + flag + 1;
      if flag == 0 {
        break;
      }
      left := left.rest;
    }
  }

  /** The loop of `dns_parse_response` over the questions stops right behind them. */
  method SkipQuestions(msg: string, ghost qs: Questions) returns (ptr: nat)
    requires |msg| >= HEADER && QuestionsAt(msg, HEADER, qs)
    requires Word(msg, 4) == Count(qs)
    ensures ptr == End(HEADER, qs)
  {
    var queries := Num(msg[4]) * 256 + Num(msg[5]);
    ghost var left := qs;
    ptr := HEADER;
    var i := 0;
    while i < queries
      invariant 0 <= i && i + Count(left) == queries
      invariant QuestionsAt(msg, ptr, left) && End(ptr, left) == End(HEADER, qs)
    {
      ptr := SkipName(msg, ptr, left.name);
      ptr := ptr + 4;
      left := left.more;
      i := i + 1;
    }
  }

  /** The request for a host name, when the allocation for its question held `memory`. */
  function Request(hostname: string, memory: string, id0: char, id1: char): string {
    Header(id0, id1) + QuestionName(hostname, memory) + TYPE_AND_CLASS
  }

  /** Creating and building it. */
  method Ask(hostname: string, memory: string, id0: char, id1: char) returns (request: array<char>, length: nat)
    requires |memory| == |hostname| + 2
    ensures fresh(request) && request[..] == Request(hostname, memory, id0, id1)
    ensures length == request.Length == |hostname| + 18
  {
    var qname := CreateQuestion(hostname, memory);
    QuestionLength(hostname, memory);
    request := new char[HEADER + qname.Length + 4];
    length := BuildRequest(Header(id0, id1), qname, request);
  }

  lemma QuestionLength(hostname: string, memory: string)
    requires |memory| == |hostname| + 2
    ensures |QuestionName(hostname, memory)| == |memory|
  {
  }

  /** In the request the encoded tokens stand behind the header. */
  lemma RequestLaid(hostname: string, memory: string, id0: char, id1: char)
    requires |memory| == |hostname| + 2 && Tokens(hostname, 0) != Root
    ensures var msg := Request(hostname, memory, id0, id1);
      |msg| == |hostname| + 18 && Laid(msg, HEADER, Tokens(hostname, 0))
  {
    FilledIff(hostname);
    QuestionLength(hostname, memory);
    LaidInside(Header(id0, id1), Tokens(hostname, 0), memory[|Encode(Tokens(hostname, 0))|..], TYPE_AND_CLASS);
  }

  lemma LaidInside(front: string, ls: Labels, rest: string, back: string)
    ensures Laid(front + (Encode(ls) + rest) + back, |front|, ls)
  {
    var name, msg := Encode(ls), front + (Encode(ls) + rest) + back;
    Inside(front, name, rest, back);
    Middle(front, name, rest + back);
    EncodeLaid(msg, |front|, ls);
  }

  lemma Inside(a: string, b: string, c: string, d: string)
    ensures a + (b + c) + d == a + b + (c + d)
  {
  }

  /** What a receiver reads of a request: the identifier, the flag for recursion and no other, one question
      and no records; and behind the name type 1, an address, and class 1, the Internet. */
  lemma RequestCounts(msg: string, id0: char, id1: char, name: string)
    requires msg == Header(id0, id1) + name + TYPE_AND_CLASS
    ensures |msg| == HEADER + |name| + 4 && msg[0] == id0 && msg[1] == id1
    ensures Word(msg, 2) == 0x0100 && Word(msg, 4) == 1 && Word(msg, 6) == Word(msg, 8) == Word(msg, 10) == 0
    ensures Word(msg, HEADER + |name|) == 1 && Word(msg, HEADER + |name| + 2) == 1
  {
    assert forall i | 0 <= i < HEADER :: msg[i] == Header(id0, id1)[i];
    assert forall i | 0 <= i < 4 :: msg[HEADER + |name| + i] == TYPE_AND_CLASS[i];
  }

  lemma Middle(a: string, b: string, c: string)
    ensures (a + b + c)[|a|..|a| + |b|] == b
  {
  }

  /** The way of every host name that has a token: the parser gives it back from the request if and only if
      no token has more than 191 bytes and there are single dots between the tokens and nowhere else; ... */
  lemma EchoIff(hostname: string, memory: string, id0: char, id1: char)
    requires |memory| == |hostname| + 2 && Tokens(hostname, 0) != Root
    requires IsOctets(Request(hostname, memory, id0, id1))
    ensures var msg := Request(hostname, memory, id0, id1);
      (exists way :: Goes(msg, HEADER, way) && Written(msg, HEADER, way) == hostname) <==>
        Name(Tokens(hostname, 0), 191) && hostname == Join(Tokens(hostname, 0))
  {
    RequestLaid(hostname, memory, id0, id1);
    HostIff(Request(hostname, memory, id0, id1), HEADER, hostname);
  }

  /** ... without a token the request holds whatever the allocation held: the empty host name comes back, or
      another name in its place. */
  lemma NoToken(id0: char, id1: char)
    ensures Tokens("", 0) == Root
    ensures var msg := Request("", [NUL, NUL], id0, id1);
      Goes(msg, HEADER, Stop) && Written(msg, HEADER, Stop) == ""
    ensures var msg := Request("", [Octet(1), 'x'], id0, id1);
      Goes(msg, HEADER, Label(Stop)) && Written(msg, HEADER, Label(Stop)) == "x"
  {
    var msg := Request("", [Octet(1), 'x'], id0, id1);
    assert msg[HEADER] == Octet(1) && msg[HEADER + 1] == 'x' && msg[HEADER + 2] == NUL;
    assert Goes(msg, HEADER + 2, Stop);
    assert msg[HEADER + 1..HEADER + 2] == "x";
  }

  /** The tokens with single dots are no longer than the host name, and as long only if they are it. */
  lemma EchoLength(hostname: string)
    requires Tokens(hostname, 0) != Root
    ensures var name := Join(Tokens(hostname, 0));
      && |Encode(Tokens(hostname, 0))| == |name| + 2 && |name| <= |hostname|
      && (|name| == |hostname| <==> name == hostname)
  {
    FilledIff(hostname);
    EncodedLength(Tokens(hostname, 0));
  }

  /** What the response parser needs of the request. */
  lemma RequestReady(hostname: string, memory: string, id0: char, id1: char)
    requires |memory| == |hostname| + 2 && Tokens(hostname, 0) != Root && Name(Tokens(hostname, 0), 191)
    ensures var msg, ls := Request(hostname, memory, id0, id1), Tokens(hostname, 0);
      && QuestionsAt(msg, HEADER, Question(ls, Done)) && Word(msg, 4) == 1
      && Goes(msg, HEADER, WayOver(ls)) && Written(msg, HEADER, WayOver(ls)) == Join(ls)
  {
    var msg, ls := Request(hostname, memory, id0, id1), Tokens(hostname, 0);
    RequestLaid(hostname, memory, id0, id1);
    RequestCounts(msg, id0, id1, QuestionName(hostname, memory));
    NameSized(ls, 191);
    RoundTrip(msg, HEADER, ls);
  }

  /** The whole way, run: encoded into a question, built into a request, skipped and parsed. What comes back
      is the tokens with single dots between them, and skipping stops right behind their encoding and the
      type and class, which is the end of the request if and only if the host name is of that form. */
  method Echo(hostname: string, memory: string, id0: char, id1: char) returns (name: string, length: nat, end: nat)
    requires |memory| == |hostname| + 2 && Tokens(hostname, 0) != Root && Name(Tokens(hostname, 0), 191)
    ensures name == Join(Tokens(hostname, 0)) && length == |hostname| + 18 && end == |name| + 18
    ensures name == hostname <==> end == length
  {
    var request;
    request, length := Ask(hostname, memory, id0, id1);
    EchoLength(hostname);
    RequestReady(hostname, memory, id0, id1);
    end := SkipQuestions(request[..], Question(Tokens(hostname, 0), Done));
    var out := new char[|hostname|];
    var total := ParseName(request[..], HEADER, out, 0, WayOver(Tokens(hostname, 0)));
    name := out[..total];
  }

  lemma {:induction false} NameSized(ls: Labels, most: nat)
    requires Name(ls, most) && most <= 255
    ensures Sized(ls)
    decreases ls
  {
    if ls.More? {
      NameSized(ls.rest, most);
    }
  }
}

/** The string operations of the standard library that the diff parser and printer rely on. */
module Text {
  import opened Sequences
  import opened DiffModel

  // ----- searching and splitting -----

  function IndexOf(s: string, c: char): (r: Option<nat>)
    ensures r.Some? ==> r.value < |s| && s[r.value] == c && c !in s[..r.value]
    ensures r.None? ==> c !in s
  {
    if s == [] then None
    else if s[0] == c then Some(0)
    else match IndexOf(s[1..], c)
      case Some(i) => Some(i + 1)
      case None => None
  }

  /** `str::split` on a character: always at least one part. */
  function Split(s: string, c: char): (parts: seq<string>)
    ensures parts != []
    decreases |s|
  {
    match IndexOf(s, c)
    case None => [s]
    case Some(i) => [s[..i]] + Split(s[i + 1..], c)
  }

  lemma IndexAfter(a: string, c: char, b: string)
    requires c !in a
    ensures IndexOf(a + [c] + b, c) == Some(|a|)
  {
    var s := a + [c] + b;
    assert s[|a|] == c && c in s;
    assert forall i :: 0 <= i < |a| ==> s[i] == a[i];
    assert forall i :: |a| < i <= |s| ==> s[..i][|a|] == c;
  }

  lemma SplitAfter(a: string, c: char, b: string)
    requires c !in a
    ensures Split(a + [c] + b, c) == [a] + Split(b, c)
  {
    IndexAfter(a, c, b);
    var s := a + [c] + b;
    assert s[..|a|] == a && s[|a| + 1..] == b;
  }

  /** One trailing carriage return, if there is one, is dropped. */
  function DropCR(s: string): string {
    if s != [] && s[|s| - 1] == '\r' then s[..|s| - 1] else s
  }

  /** `str::lines`: a carriage return goes only together with the line feed after it. */
  function Lines(s: string): seq<string>
    decreases |s|
  {
    if s == [] then []
    else match IndexOf(s, '\n')
      case None => [s]
      case Some(i) => [DropCR(s[..i])] + Lines(s[i + 1..])
  }

  lemma LinesCons(a: string, b: string)
    requires '\n' !in a
    ensures Lines(a + "\n" + b) == [DropCR(a)] + Lines(b)
  {
    IndexAfter(a, '\n', b);
    var s := a + "\n" + b;
    assert s == a + ['\n'] + b && s[..|a|] == a && s[|a| + 1..] == b;
  }

  /** The first line of a text that has a line feed, and the rest. */
  lemma FirstLine(a: string) returns (head: string, tail: string)
    requires a != [] && a[|a| - 1] == '\n'
    ensures a == head + "\n" + tail && '\n' !in head
    ensures tail == [] || tail[|tail| - 1] == '\n'
  {
    var i := IndexOf(a, '\n').value;
    head, tail := a[..i], a[i + 1..];
  }

  lemma LinesConcatStep(head: string, tail: string, b: string)
    requires '\n' !in head && Lines(tail + b) == Lines(tail) + Lines(b)
    ensures Lines((head + "\n" + tail) + b) == Lines(head + "\n" + tail) + Lines(b)
  {
    var first := [DropCR(head)];
    calc {
      Lines((head + "\n" + tail) + b);
      { assert (head + "\n" + tail) + b == head + "\n" + (tail + b); }
      Lines(head + "\n" + (tail + b));
      { LinesCons(head, tail + b); }
      first + (Lines(tail) + Lines(b));
      (first + Lines(tail)) + Lines(b);
      { LinesCons(head, tail); }
      Lines(head + "\n" + tail) + Lines(b);
    }
  }

  /** Text that ends at a line feed can be cut there. */
  lemma {:induction false} LinesConcat(a: string, b: string)
    requires a == [] || a[|a| - 1] == '\n'
    ensures Lines(a + b) == Lines(a) + Lines(b)
    decreases |a|
  {
    if a == [] {
      assert a + b == b;
    } else {
      var head, tail := FirstLine(a);
      LinesConcat(tail, b);
      LinesConcatStep(head, tail, b);
    }
  }

  // ----- trimming -----

  /** `str::trim_start_matches`: the prefix goes as often as it is there. */
  function TrimStart(s: string, p: string): string
    requires p != []
    decreases |s|
  {
    if p <= s then TrimStart(s[|p|..], p) else s
  }

  lemma TrimStartOnce(p: string, s: string)
    requires p != []
    ensures TrimStart(p + s, p) == TrimStart(s, p)
  {
  }

  lemma {:induction false} TrimStartShrinks(s: string, p: string)
    requires p != []
    ensures |TrimStart(s, p)| <= |s|
    ensures TrimStart(s, p) == s <==> !(p <= s)
    decreases |s|
  {
    if p <= s { TrimStartShrinks(s[|p|..], p); }
  }

  /** The Unicode White_Space property. */
  predicate IsWhitespace(c: char) {
    var n := c as int;
    || 0x9 <= n <= 0xD || n == 0x20 || n == 0x85 || n == 0xA0 || n == 0x1680
    || 0x2000 <= n <= 0x200A || n == 0x2028 || n == 0x2029 || n == 0x202F || n == 0x205F || n == 0x3000
  }

  /** The Unicode general category Cc. */
  predicate IsControl(c: char) {
    var n := c as int;
    n <= 0x1F || 0x7F <= n <= 0x9F
  }

  function TrimLeft(s: string): string {
    if s != [] && IsWhitespace(s[0]) then TrimLeft(s[1..]) else s
  }

  function TrimRight(s: string): string {
    if s != [] && IsWhitespace(s[|s| - 1]) then TrimRight(s[..|s| - 1]) else s
  }

  function Trim(s: string): string {
    TrimRight(TrimLeft(s))
  }

  function Word(w: string): seq<string> {
    if w == [] then [] else [w]
  }

  /** The words of `s` when the word `cur` is still open. */
  function Words(cur: string, s: string): seq<string>
    decreases |s|
  {
    if s == [] then Word(cur)
    else if IsWhitespace(s[0]) then Word(cur) + Words([], s[1..])
    else Words(cur + [s[0]], s[1..])
  }

  /** `str::split_whitespace`. */
  function SplitWhitespace(s: string): seq<string> {
    Words([], s)
  }

  ghost predicate Solid(w: string) {
    forall i :: 0 <= i < |w| ==> !IsWhitespace(w[i])
  }

  lemma {:induction false} WordsSolid(cur: string, w: string, s: string)
    requires Solid(w)
    ensures Words(cur, w + s) == Words(cur + w, s)
    decreases |w|
  {
    if w == [] {
      assert w + s == s && cur + w == cur;
    } else {
      assert (w + s)[0] == w[0] && (w + s)[1..] == w[1..] + s;
      assert (cur + [w[0]]) + w[1..] == cur + w;
      WordsSolid(cur + [w[0]], w[1..], s);
    }
  }

  /** A solid word followed by a space is the first word. */
  lemma SplitWord(w: string, s: string)
    requires Solid(w) && w != []
    ensures SplitWhitespace(w + " " + s) == [w] + SplitWhitespace(s)
  {
    assert w + " " + s == w + (" " + s) && [] + w == w;
    WordsSolid([], w, " " + s);
    assert (" " + s)[1..] == s;
  }

  lemma SplitLastWord(w: string)
    requires Solid(w) && w != []
    ensures SplitWhitespace(w) == [w]
  {
    assert w + [] == w && [] + w == w;
    WordsSolid([], w, []);
  }

  /** `str::split(part).next()`: the text before the first occurrence of `part`. */
  function Before(s: string, part: string): string {
    if s == [] || part <= s then [] else [s[0]] + Before(s[1..], part)
  }

  // ----- numbers -----

  function DigitChar(d: nat): char
    requires d < 10
  {
    (0x30 + d) as char
  }

  predicate IsDigit(c: char) {
    '0' <= c <= '9'
  }

  function DigitValue(c: char): nat
    requires IsDigit(c)
  {
    c as int - 0x30
  }

  function Decimal(n: nat): (s: string)
    ensures s != [] && forall i :: 0 <= i < |s| ==> IsDigit(s[i])
  {
    if n < 10 then [DigitChar(n)] else Decimal(n / 10) + [DigitChar(n % 10)]
  }

  function Value(s: string): nat
    requires forall i :: 0 <= i < |s| ==> IsDigit(s[i])
  {
    if s == [] then 0 else Value(s[..|s| - 1]) * 10 + DigitValue(s[|s| - 1])
  }

  /** `str::parse::<u32>`: an optional plus sign, then decimal digits, no overflow. */
  function ParseU32(s: string): Option<u32> {
    var body := if |s| > 1 && s[0] == '+' then s[1..] else s;
    if body != [] && (forall i :: 0 <= i < |body| ==> IsDigit(body[i])) && Value(body) <= U32_MAX then Some(Value(body))
    else None
  }

  lemma {:induction false} DecimalValue(n: nat)
    ensures Value(Decimal(n)) == n
  {
    if n >= 10 {
      DecimalValue(n / 10);
      var s := Decimal(n);
      assert s[..|s| - 1] == Decimal(n / 10);
    } else {
      assert Value([DigitChar(n)]) == Value([]) * 10 + n;
    }
  }

  /** Printing and parsing a `u32` is a round trip. */
  lemma DecimalRoundTrip(n: nat)
    ensures ParseU32(Decimal(n)) == if n <= U32_MAX then Some(n) else None
  {
    DecimalValue(n);
    assert IsDigit(Decimal(n)[0]);
  }

  // ----- size -----

  function CharBytes(c: char): nat {
    var n := c as int;
    if n < 0x80 then 1 else if n < 0x800 then 2 else if n < 0x10000 then 3 else 4
  }

  /** The length of the text in UTF-8 bytes. */
  function ByteLength(s: string): nat {
    if s == [] then 0 else CharBytes(s[0]) + ByteLength(s[1..])
  }

  lemma {:induction false} ByteLengthConcat(a: string, b: string)
    ensures ByteLength(a + b) == ByteLength(a) + ByteLength(b)
  {
    if a == [] {
      assert a + b == b;
    } else {
      assert (a + b)[0] == a[0] && (a + b)[1..] == a[1..] + b;
      ByteLengthConcat(a[1..], b);
    }
  }

  lemma {:induction false} LinesBounded(s: string)
    ensures |Lines(s)| <= ByteLength(s)
    decreases |s|
  {
    if s != [] {
      match IndexOf(s, '\n')
      case None =>
      case Some(i) =>
        LinesBounded(s[i + 1..]);
        assert s == s[..i] + [s[i]] + s[i + 1..];
        ByteLengthConcat(s[..i] + [s[i]], s[i + 1..]);
        ByteLengthConcat(s[..i], [s[i]]);
    }
  }

  // ----- paths -----

  /** Some segment of the path is the parent directory. */
  predicate HasParentSegment(path: string) {
    ".." in Split(path, '/')
  }
  /** At position `i` the path has two dots that make up a whole segment. */
  predicate ClimbsAt(path: string, i: nat) {
    && i + 2 <= |path| && path[i] == '.' && path[i + 1] == '.'
    && (i == 0 || path[i - 1] == '/') && (i + 2 == |path| || path[i + 2] == '/')
  }

  lemma ClimbsFirst(a: string, b: string, i: nat)
    requires '/' !in a
    ensures i <= |a| ==> (ClimbsAt(a + ['/'] + b, i) <==> i == 0 && a == "..")
    ensures i > |a| ==> (ClimbsAt(a + ['/'] + b, i) <==> ClimbsAt(b, i - |a| - 1))
  {
    var path := a + ['/'] + b;
    assert path[|a|] == '/' && forall k :: 0 <= k < |a| ==> path[k] == a[k] && a[k] in a;
    assert forall k :: |a| < k < |path| ==> path[k] == b[k - |a| - 1];
    if i <= |a| && ClimbsAt(path, i) {
      assert path[i + 1] != '/' && path[i] != '/';
      assert i + 1 < |a|;
      assert a == [a[0], a[1]];
    }
  }

  /** Some segment of the path, between slashes or the ends, is two dots. */
  ghost predicate Climbs(path: string) {
    exists i: nat :: ClimbsAt(path, i)
  }

  lemma ClimbsAlone(path: string)
    requires '/' !in path
    ensures Climbs(path) <==> path == ".."
  {
    assert forall k :: 0 <= k < |path| ==> path[k] != '/';
    if i: nat :| ClimbsAt(path, i) {
      assert path == [path[0], path[1]];
    }
    if path == ".." {
      assert ClimbsAt(path, 0);
    }
  }

  lemma ClimbsJoin(a: string, b: string)
    requires '/' !in a
    ensures Climbs(a + ['/'] + b) <==> a == ".." || Climbs(b)
  {
    var path := a + ['/'] + b;
    if i: nat :| ClimbsAt(path, i) {
      ClimbsFirst(a, b, i);
    }
    if a == ".." {
      ClimbsFirst(a, b, 0);
    }
    if i: nat :| ClimbsAt(b, i) {
      ClimbsFirst(a, b, i + |a| + 1);
      assert ClimbsAt(path, i + |a| + 1);
    }
  }

  lemma ParentJoin(a: string, b: string)
    requires '/' !in a
    ensures HasParentSegment(a + ['/'] + b) <==> a == ".." || HasParentSegment(b)
  {
    SplitAfter(a, '/', b);
  }

  lemma ParentAlone(path: string)
    requires '/' !in path
    ensures HasParentSegment(path) <==> path == ".."
  {
  }

  lemma CutAt(s: string, c: char) returns (a: string, b: string)
    requires c in s
    ensures s == a + [c] + b && c !in a
  {
    var i := IndexOf(s, c).value;
    a, b := s[..i], s[i + 1..];
  }

  /** Splitting at slashes finds exactly those segments. */
  lemma {:induction false} ParentSegmentExactly(path: string)
    ensures HasParentSegment(path) <==> Climbs(path)
    decreases |path|
  {
    if '/' in path {
      var a, b := CutAt(path, '/');
      ParentSegmentExactly(b);
      ParentJoin(a, b);
      ClimbsJoin(a, b);
    } else {
      ParentAlone(path);
      ClimbsAlone(path);
    }
  }
}

/** Mailbox messages and their schema check. */
module Protocol {
  import opened Basics
  import Truncate

  /** A message id: one a caller chose, or a UUIDv5 (section 4.3 of RFC 4122),
      taken to be an injective function of the name it is made from. */
  datatype MsgId = Given(text: string) | Uuid5(name: string)

  datatype Kind = Task | Report | Progress | Evidence | Question | Response | Notice | Receipt | Unknown(text: string)

  const BROADCAST_TO: string := "*"
  const MAX_MAILBOX_BODY: nat := 100_000
  const READ: string := "READ"

  /** The fields of a message; an absent field is the empty string. */
  datatype Fields = Fields(
    sender: string, to: string, subject: string, body: string, kind: Kind,
    replyTo: string, runId: string, requestId: string, commandId: string,
    traceId: string, causationId: string, requireAck: bool, receiptType: string)

  // ---- character classes ----

  predicate Alphanumeric(c: char) {
    'a' <= c <= 'z' || 'A' <= c <= 'Z' || '0' <= c <= '9'
  }

  predicate SafeChar(c: char) {
    Alphanumeric(c) || c == '_' || c == '.' || c == '-'
  }

  predicate AllSafe(s: string) {
    forall i :: 0 <= i < |s| ==> SafeChar(s[i])
  }

  /** `$` in a pattern used with match also matches before a final newline. */
  function Chomp(s: string): string {
    if s != "" && s[|s| - 1] == '\n' then s[..|s| - 1] else s
  }

  /** AGENT_ID_RE */
  predicate SafeAgentId(s: string) {
    var t := Chomp(s);
    1 <= |t| <= 32 && Alphanumeric(t[0]) && AllSafe(t)
  }

  /** PATH_SAFE_RE, without the two directory names. */
  predicate SafePath(s: string) {
    var t := Chomp(s);
    1 <= |t| <= 64 && AllSafe(t) && s != "." && s != ".."
  }

  /** _validate_msg_id, which matches the full text. */
  predicate SafeMsgId(m: MsgId) {
    m.Given? ==> 1 <= |m.text| <= 64 && Alphanumeric(m.text[0]) && AllSafe(m.text)
  }

  /** What str.strip() removes. */
  predicate Whitespace(c: char) {
    var n := c as int;
    || 0x09 <= n <= 0x0D || 0x1C <= n <= 0x20 || n == 0x85 || n == 0xA0 || n == 0x1680
    || 0x2000 <= n <= 0x200A || n == 0x2028 || n == 0x2029 || n == 0x202F || n == 0x205F || n == 0x3000
  }

  predicate Blank(s: string) {
    forall i :: 0 <= i < |s| ==> Whitespace(s[i])
  }

  function Utf8Width(c: char): nat {
    var n := c as int;
    if n < 0x80 then 1 else if n < 0x800 then 2 else if n < 0x1_0000 then 3 else 4
  }

  function Utf8Length(s: string): nat {
    if s == "" then 0 else Utf8Length(s[..|s| - 1]) + Utf8Width(s[|s| - 1])
  }

  // ---- validate_message ----

  predicate KindFieldsPresent(f: Fields) {
    match f.kind
    case Task => !Blank(f.runId) && !Blank(f.requestId)
    case Report => !Blank(f.runId) && !Blank(f.requestId) && !Blank(f.replyTo)
    case Receipt =>
      && !Blank(f.replyTo) && !Blank(f.runId) && !Blank(f.requestId)
      && f.receiptType == READ && !f.requireAck
    case _ => true
  }

  predicate ValidFields(f: Fields) {
    && !f.kind.Unknown?
    && (f.receiptType == "" || f.receiptType == READ)
    && !Blank(f.subject) && !Blank(f.body)
    && KindFieldsPresent(f)
    && (f.requestId == "" || SafePath(f.requestId))
    && (f.runId == "" || SafePath(f.runId))
    && (f.replyTo == "" || SafePath(f.replyTo))
  }

  // ---- attachments ----

  function Elements<T>(s: seq<T>): set<T> {
    set x | x in s
  }

  /** _attachments_eq: as many, and the same set. */
  predicate AttachmentsEq<T(==)>(a: seq<T>, b: seq<T>) {
    |a| == |b| && Elements(a) == Elements(b)
  }

  /** AttachmentsEq means "the same attachments in any order" for every list
      exactly when `a` repeats nothing or holds nothing but repeats of one. */
  lemma AttachmentsEqIsAnyOrder<T>(a: seq<T>)
    ensures (forall b: seq<T> :: AttachmentsEq(a, b) ==> multiset(a) == multiset(b))
       <==> Distinct(a) || forall x, y :: x in a && y in a ==> x == y
  {
    if Distinct(a) {
      forall b: seq<T> | AttachmentsEq(a, b) ensures multiset(a) == multiset(b) {
        SameSetSameMultiset(a, b);
      }
    } else if forall x, y :: x in a && y in a ==> x == y {
      forall b: seq<T> | AttachmentsEq(a, b) ensures multiset(a) == multiset(b) {
        OnlyRepeats(a, b);
      }
    } else {
      var b := OneSwapped(a);
    }
  }

  lemma OnlyRepeats<T>(a: seq<T>, b: seq<T>)
    requires AttachmentsEq(a, b) && forall x, y :: x in a && y in a ==> x == y
    ensures a == b
  {
    forall i | 0 <= i < |b| ensures a[i] == b[i] {
      assert b[i] in b;
      SameElements(a, b, b[i]);
      assert a[i] in a;
    }
  }

  lemma OneSwapped<T>(a: seq<T>) returns (b: seq<T>)
    requires !Distinct(a) && exists x, y :: x in a && y in a && x != y
    ensures AttachmentsEq(a, b) && multiset(a) != multiset(b)
  {
    var i, j :| 0 <= i < j < |a| && a[i] == a[j];
    var y :| y in a && y != a[i];
    b := a[i := y];
    SwapKeepsElements(a, i, j, y);
    SwapChangesCount(a, i, y);
  }

  lemma SwapKeepsElements<T>(a: seq<T>, i: nat, j: nat, y: T)
    requires i < |a| && j < |a| && i != j && a[i] == a[j] && y in a
    ensures Elements(a[i := y]) == Elements(a)
  {
    var b := a[i := y];
    assert b[j] == a[i] && b[i] == y;
    forall x ensures x in a <==> x in b {
      if x in a && x != a[i] {
        var k :| 0 <= k < |a| && a[k] == x;
        assert b[k] == x;
      }
    }
  }

  lemma SwapChangesCount<T>(a: seq<T>, i: nat, y: T)
    requires i < |a| && a[i] != y
    ensures multiset(a[i := y]) != multiset(a)
  {
    var b := a[i := y];
    assert a == a[..i] + [a[i]] + a[i + 1..] && b == a[..i] + [y] + a[i + 1..];
    assert multiset(b)[y] == multiset(a)[y] + 1;
  }

  lemma SameElements<T>(a: seq<T>, b: seq<T>, x: T)
    requires AttachmentsEq(a, b)
    ensures x in a <==> x in b
  {
    assert x in Elements(a) <==> x in Elements(b);
  }

  lemma {:induction false} SetOfMultiset<T>(a: seq<T>)
    requires Distinct(a)
    ensures |Elements(a)| == |a| && forall x :: x in a ==> multiset(a)[x] == 1
    decreases |a|
  {
    if a != [] {
      var init, last := a[..|a| - 1], a[|a| - 1];
      assert a == init + [last];
      SetOfMultiset(init);
      assert last !in init;
      assert Elements(a) == Elements(init) + {last};
    }
  }

  lemma {:induction false} SetNoLarger<T>(a: seq<T>)
    ensures |Elements(a)| <= |a|
    ensures |Elements(a)| == |a| ==> Distinct(a)
    decreases |a|
  {
    if a != [] {
      var init, last := a[..|a| - 1], a[|a| - 1];
      assert a == init + [last];
      SetNoLarger(init);
      assert Elements(a) == Elements(init) + {last};
      if |Elements(a)| == |a| {
        assert last !in Elements(init);
      }
    }
  }

  lemma SameSetSameMultiset<T>(a: seq<T>, b: seq<T>)
    requires Distinct(a) && AttachmentsEq(a, b)
    ensures multiset(a) == multiset(b)
  {
    SetOfMultiset(a);
    SetNoLarger(b);
    SetOfMultiset(b);
    forall x ensures multiset(a)[x] == multiset(b)[x] {
      SameElements(a, b, x);
      if x !in a {
        assert x !in multiset(a) && x !in multiset(b);
      }
    }
  }

  // ---- what the schema check demands, and the body limit ----

  lemma SafeNotBlank(s: string)
    requires SafePath(s)
    ensures s != "" && !Blank(s)
  {
    assert SafeChar(Chomp(s)[0]) && Chomp(s)[0] == s[0];
  }

  /** The schema check in terms of the kinds: everything needs a subject and a
      body; tasks, reports and receipts need a run and a request, reports and
      receipts also what they reply to, all of them safe path components; a
      receipt is a READ receipt and never asks for a receipt itself. */
  lemma ValidWhen(f: Fields)
    ensures ValidFields(f) <==>
      && !f.kind.Unknown? && !Blank(f.subject) && !Blank(f.body)
      && (f.kind in {Task, Report, Receipt} ==> SafePath(f.runId) && SafePath(f.requestId))
      && (f.kind in {Report, Receipt} ==> SafePath(f.replyTo))
      && (f.kind == Receipt ==> f.receiptType == "READ" && !f.requireAck)
      && f.receiptType in {"", "READ"}
      && (f.runId != "" ==> SafePath(f.runId)) && (f.requestId != "" ==> SafePath(f.requestId))
      && (f.replyTo != "" ==> SafePath(f.replyTo))
  {
    forall s: string | SafePath(s) ensures s != "" && !Blank(s) {
      SafeNotBlank(s);
    }
  }

  /** A safe path component stays where it is put: it is neither directory name
      and holds no separator, colon or blank, but for one final newline. */
  lemma SafePathStays(s: string, i: nat)
    requires SafePath(s) && i < |s|
    ensures s != "." && s != ".." && s[i] !in {'/', '\\', ':', ' ', '*', '?', '['}
    ensures s[i] == '\n' ==> i == |s| - 1
  {
    var t := Chomp(s);
    assert i < |t| ==> SafeChar(t[i]) && t[i] == s[i];
  }

  function Runes(s: string): seq<Truncate.Rune> {
    if s == "" then [] else Runes(s[..|s| - 1]) + [s[|s| - 1] as int]
  }

  lemma {:induction false} EncodeConcat(a: seq<Truncate.Rune>, b: seq<Truncate.Rune>)
    ensures Truncate.Encode(a + b) == Truncate.Encode(a) + Truncate.Encode(b)
    decreases |a|
  {
    if a == [] {
      assert a + b == b;
    } else {
      assert (a + b)[1..] == a[1..] + b;
      EncodeConcat(a[1..], b);
    }
  }

  /** The length the body limit is about is that of the UTF-8 encoding. */
  lemma {:induction false} Utf8LengthIsEncoded(s: string)
    ensures Utf8Length(s) == |Truncate.Encode(Runes(s))|
    decreases |s|
  {
    if s != "" {
      var r: Truncate.Rune := s[|s| - 1] as int;
      Utf8LengthIsEncoded(s[..|s| - 1]);
      EncodeConcat(Runes(s[..|s| - 1]), [r]);
      assert Truncate.Encode([r]) == Truncate.EncodeOne(r) + Truncate.Encode([]);
    }
  }

  // ---- the id patterns ----

  /** One to `most` characters out of letters, digits, `_`, `.` and `-`, the first
      of them a letter or digit if `strict`. */
  predicate Fits(t: string, most: nat, strict: bool) {
    && 1 <= |t| <= most
    && (forall i :: 0 <= i < |t| ==>
          'a' <= t[i] <= 'z' || 'A' <= t[i] <= 'Z' || '0' <= t[i] <= '9' || t[i] in {'_', '.', '-'})
    && (strict ==> t[0] !in {'_', '.', '-'})
  }

  lemma FitsIs(t: string, most: nat, strict: bool)
    ensures Fits(t, most, strict) <==> 1 <= |t| <= most && AllSafe(t) && (strict ==> Alphanumeric(t[0]))
  {
    if AllSafe(t) {
      assert forall i :: 0 <= i < |t| ==> SafeChar(t[i]);
    }
  }

  lemma ChompExactly(s: string)
    ensures s == Chomp(s) || s == Chomp(s) + ['\n']
  {
  }

  lemma ChompIs(s: string, t: string, most: nat, strict: bool)
    requires Fits(t, most, strict) && (s == t || s == t + ['\n'])
    ensures Chomp(s) == t
  {
    assert t[|t| - 1] != '\n';
    if s != t {
      assert s[..|s| - 1] == t;
    }
  }

  /** s is such a text, perhaps with one newline after it. */
  ghost predicate FitsLine(s: string, most: nat, strict: bool) {
    exists t :: Fits(t, most, strict) && (s == t || s == t + ['\n'])
  }

  lemma LineExactly(s: string, most: nat, strict: bool)
    ensures FitsLine(s, most, strict) <==> Fits(Chomp(s), most, strict)
  {
    ChompExactly(s);
    if t :| Fits(t, most, strict) && (s == t || s == t + ['\n']) {
      ChompIs(s, t, most, strict);
    }
  }

  /** Agent ids and path components may carry one final newline; message ids may
      not, unless they are UUIDs, which are never looked at. */
  lemma PatternsExactly(s: string)
    ensures SafeAgentId(s) <==> FitsLine(s, 32, true)
    ensures SafePath(s) <==> s != "." && s != ".." && FitsLine(s, 64, false)
    ensures SafeMsgId(Given(s)) <==> Fits(s, 64, true)
    ensures SafeMsgId(Uuid5(s))
  {
    LineExactly(s, 32, true);
    LineExactly(s, 64, false);
    FitsIs(Chomp(s), 32, true);
    FitsIs(Chomp(s), 64, false);
    FitsIs(s, 64, true);
  }
}

/** Write scopes: portable normalization, and overlap as shared subtrees. */
module WriteScope {
  import opened Ordering

  // ---------------------------------------------------------------- text

  predicate IsSpace(c: char) {
    var n := c as int;
    || 9 <= n <= 13 || n == 32 || n == 0x85 || n == 0xA0 || n == 0x1680 || 0x2000 <= n <= 0x200A
    || n == 0x2028 || n == 0x2029 || n == 0x202F || n == 0x205F || n == 0x3000
  }

  /** Text that trimming leaves empty. */
  predicate Blank(s: string) {
    forall i :: 0 <= i < |s| ==> IsSpace(s[i])
  }

  function Utf8Width(c: char): nat {
    var n := c as int;
    if n < 0x80 then 1 else if n < 0x800 then 2 else if n < 0x10000 then 3 else 4
  }

  /** Length in UTF-8, as string lengths are counted. */
  function Bytes(s: string): nat {
    if s == "" then 0 else Bytes(s[..|s| - 1]) + Utf8Width(s[|s| - 1])
  }

  /** Some character is not white space. */
  ghost predicate HasInk(s: string) {
    exists i :: 0 <= i < |s| && !IsSpace(s[i])
  }

  lemma InkExactly(s: string)
    ensures Blank(s) <==> !HasInk(s)
  {
  }

  /** UTF-8 lengths add up, and one character takes one to four bytes by its code point. */
  lemma {:induction false} BytesExactly(a: string, b: string, c: char)
    ensures Bytes(a + b) == Bytes(a) + Bytes(b)
    ensures Bytes([c]) == if c as int <= 0x7F then 1 else if c as int <= 0x7FF then 2 else if c as int <= 0xFFFF then 3 else 4
  {
    assert [c][..0] == "";
    if b == "" {
      assert a + b == a;
    } else {
      var front, last := b[..|b| - 1], b[|b| - 1];
      BytesExactly(a, front, c);
      assert (a + b)[..|a + b| - 1] == a + front && (a + b)[|a + b| - 1] == last;
    }
  }

  function LowerChar(c: char): char {
    if 'A' <= c <= 'Z' then (c as int + 32) as char else c
  }

  function Lower(s: string): (r: string)
    ensures |r| == |s| && forall i :: 0 <= i < |s| ==> r[i] == LowerChar(s[i])
  {
    if s == "" then "" else [LowerChar(s[0])] + Lower(s[1..])
  }

  function Split(s: string): (r: seq<string>)
    ensures r != []
  {
    if s == "" then [""]
    else if s[0] == '/' then [""] + Split(s[1..])
    else
      var rest := Split(s[1..]);
      [[s[0]] + rest[0]] + rest[1..]
  }

  function Join(parts: seq<string>): string {
    if parts == [] then ""
    else if |parts| == 1 then parts[0]
    else parts[0] + "/" + Join(parts[1..])
  }

  lemma {:induction false} SplitCons(c: char, s: string)
    requires c != '/'
    ensures Split([c] + s) == [[c] + Split(s)[0]] + Split(s)[1..]
  {
    assert ([c] + s)[1..] == s;
  }

  /** Splitting distributes over a separator. */
  lemma {:induction false} SplitConcat(a: string, b: string)
    ensures Split(a + "/" + b) == Split(a) + Split(b)
  {
    if a == "" {
      assert (a + "/" + b)[0] == '/' && (a + "/" + b)[1..] == b;
    } else {
      var front, rest := a[1..], a[1..] + "/" + b;
      SplitConcat(front, b);
      assert a == [a[0]] + front;
      assert a + "/" + b == [a[0]] + rest;
      if a[0] == '/' {
        assert ([a[0]] + rest)[1..] == rest;
      } else {
        SplitCons(a[0], rest);
        SplitCons(a[0], front);
        HeadOfConcat(Split(front), Split(b), [a[0]]);
      }
    }
  }

  lemma HeadOfConcat(xs: seq<string>, ys: seq<string>, c: string)
    requires xs != []
    ensures [c + (xs + ys)[0]] + (xs + ys)[1..] == ([c + xs[0]] + xs[1..]) + ys
  {
  }

  lemma {:induction false} SplitPlain(s: string)
    requires '/' !in s
    ensures Split(s) == [s]
  {
    if s != "" {
      SplitPlain(s[1..]);
      assert [s[0]] + s[1..] == s;
    }
  }

  lemma {:induction false} SplitJoin(parts: seq<string>)
    requires parts != [] && forall i :: 0 <= i < |parts| ==> '/' !in parts[i]
    ensures Split(Join(parts)) == parts
  {
    SplitPlain(parts[0]);
    if |parts| > 1 {
      SplitJoin(parts[1..]);
      SplitConcat(parts[0], Join(parts[1..]));
      assert [parts[0]] + parts[1..] == parts;
    }
  }

  lemma {:induction false} JoinConcat(a: seq<string>, b: seq<string>)
    requires a != [] && b != []
    ensures Join(a + b) == Join(a) + "/" + Join(b)
  {
    if |a| == 1 {
      assert (a + b)[1..] == b;
    } else {
      JoinConcat(a[1..], b);
      assert (a + b)[1..] == a[1..] + b;
      assert a[0] + "/" + (Join(a[1..]) + "/" + Join(b)) == a[0] + "/" + Join(a[1..]) + "/" + Join(b);
    }
  }

  lemma {:induction false} JoinChars(parts: seq<string>, c: char)
    requires c in Join(parts)
    ensures c == '/' || exists i :: 0 <= i < |parts| && c in parts[i]
  {
    if |parts| == 1 {
      assert c in parts[0];
    } else if c !in parts[0] && c != '/' {
      assert c in Join(parts[1..]);
      JoinChars(parts[1..], c);
      var i :| 0 <= i < |parts[1..]| && c in parts[1..][i];
      assert c in parts[i + 1];
    }
  }

  // ---------------------------------------------------------------- portable components

  const FORBIDDEN := "<>:\"|?*~"

  function Stem(s: string): string {
    if s == "" || s[0] == '.' then "" else [s[0]] + Stem(s[1..])
  }

  /** Device names that Windows keeps for itself; `s` is already lowercase. */
  predicate Reserved(s: string) {
    var stem := Stem(s);
    || stem == "con" || stem == "prn" || stem == "aux" || stem == "nul"
    || (|stem| == 4 && (stem[..3] == "com" || stem[..3] == "lpt") && '1' <= stem[3] <= '9')
  }

  predicate PortableChar(c: char) {
    32 <= c as int < 127 && c !in FORBIDDEN
  }

  predicate Portable(s: string) {
    && s != "" && s[|s| - 1] != '.' && s[|s| - 1] != ' '
    && (forall i :: 0 <= i < |s| ==> PortableChar(s[i]))
    && !Reserved(Lower(s))
  }

  /** The normalized components of a split path; `None` when one of them is refused. */
  function Components(parts: seq<string>): Option<seq<string>> {
    if parts == [] then Some([])
    else
      var front := Components(parts[..|parts| - 1]);
      var last := parts[|parts| - 1];
      if front.None? then None
      else if last == "" || last == "." then front
      else if Portable(last) then Some(front.value + [Lower(last)])
      else None
  }

  /** Workspace-relative and written with forward slashes only. */
  predicate Relative(raw: string) {
    && !Blank(raw) && raw != "" && raw[0] != '/' && '\\' !in raw
    && (|raw| > 1 ==> raw[1] != ':')
  }

  function Render(parts: seq<string>): string {
    if parts == [] then "." else Join(parts)
  }

  function Normalize(raw: string): Option<string> {
    if !Relative(raw) then None
    else match Components(Split(raw))
      case None => None
      case Some(parts) => Some(Render(parts))
  }

  method NormalizeWriteScope(raw: string) returns (r: Option<string>)
    ensures r == Normalize(raw)
  {
    if !Relative(raw) { return None; }
    var components: seq<string> := [];
    var parts := Split(raw);
    for i := 0 to |parts|
      invariant Components(parts[..i]) == Some(components)
    {
      var part := parts[i];
      PrefixOf(parts, i);
      if part != "" && part != "." {
        if !Portable(part) {
          ComponentsRefused(parts, i + 1);
          return None;
        }
        components := components + [Lower(part)];
      }
    }
    assert parts[..|parts|] == parts;
    r := Some(Render(components));
  }

  lemma PrefixOf(parts: seq<string>, i: nat)
    requires i < |parts|
    ensures |parts[..i + 1]| == i + 1 && parts[..i + 1][i] == parts[i] && parts[..i + 1][..i] == parts[..i]
  {
  }

  lemma {:induction false} ComponentsRefused(parts: seq<string>, n: nat)
    requires n <= |parts| && Components(parts[..n]).None?
    ensures Components(parts).None?
    decreases |parts|
  {
    if n < |parts| {
      assert parts[..|parts| - 1][..n] == parts[..n];
      ComponentsRefused(parts[..|parts| - 1], n);
    } else {
      assert parts[..n] == parts;
    }
  }

  // ---------------------------------------------------------------- normal forms

  /** A component as normalization leaves it. */
  ghost predicate NormalPart(s: string) {
    Portable(s) && Lower(s) == s && '/' !in s && '\\' !in s
  }

  ghost predicate NormalParts(parts: seq<string>) {
    forall i :: 0 <= i < |parts| ==> NormalPart(parts[i])
  }

  lemma {:induction false} LowerPortable(s: string)
    requires Portable(s) && '/' !in s && '\\' !in s
    ensures NormalPart(Lower(s))
  {
    var r := Lower(s);
    assert Lower(r) == r;
    forall i | 0 <= i < |r| ensures PortableChar(r[i]) && r[i] != '/' && r[i] != '\\' {
      assert s[i] in s;
      LowerCharPortable(s[i]);
    }
  }

  lemma LowerCharPortable(c: char)
    requires PortableChar(c) && c != '/' && c != '\\'
    ensures PortableChar(LowerChar(c)) && LowerChar(c) != '/' && LowerChar(c) != '\\'
    ensures LowerChar(c) == '.' ==> c == '.'
    ensures LowerChar(c) == ' ' ==> c == ' '
  {
  }

  /** Splitting leaves no separator and adds no character. */
  lemma {:induction false} SplitParts(s: string, i: nat)
    requires i < |Split(s)|
    ensures '/' !in Split(s)[i] && forall c :: c in Split(s)[i] ==> c in s
  {
    if s != "" {
      if s[0] == '/' {
        if i > 0 { SplitParts(s[1..], i - 1); }
      } else {
        SplitParts(s[1..], i);
      }
    }
  }

  lemma {:induction false} ComponentsNormal(raw: string, n: nat)
    requires '\\' !in raw && n <= |Split(raw)| && Components(Split(raw)[..n]).Some?
    ensures NormalParts(Components(Split(raw)[..n]).value)
  {
    if n > 0 {
      var parts := Split(raw);
      assert parts[..n][..n - 1] == parts[..n - 1];
      ComponentsNormal(raw, n - 1);
      SplitParts(raw, n - 1);
      var last := parts[n - 1];
      if last != "" && last != "." {
        LowerPortable(last);
      }
    }
  }

  /** The components of an accepted scope; the workspace root has none. */
  ghost function PartsOf(raw: string): seq<string>
    requires Normalize(raw).Some?
  {
    Components(Split(raw)).value
  }

  lemma PartsNormal(raw: string)
    requires Normalize(raw).Some?
    ensures NormalParts(PartsOf(raw)) && Normalize(raw).value == Render(PartsOf(raw))
  {
    assert Split(raw)[..|Split(raw)|] == Split(raw);
    ComponentsNormal(raw, |Split(raw)|);
  }

  lemma {:induction false} NormalComponents(parts: seq<string>)
    requires NormalParts(parts)
    ensures Components(parts) == Some(parts)
  {
    if parts != [] {
      NormalComponents(parts[..|parts| - 1]);
      assert parts[..|parts| - 1] + [parts[|parts| - 1]] == parts;
      assert NormalPart(parts[|parts| - 1]);
    }
  }

  lemma RenderRelative(parts: seq<string>)
    requires NormalParts(parts)
    ensures Relative(Render(parts))
  {
    var r := Render(parts);
    if parts == [] {
      assert r[0] == '.';
    } else {
      forall c | c in r ensures c == '/' || PortableChar(c) {
        JoinChars(parts, c);
      }
      assert NormalPart(parts[0]);
      assert r[0] == parts[0][0] && parts[0][0] in parts[0];
      if '\\' in r { JoinChars(parts, '\\'); }
      if Blank(r) {
        assert PortableChar(r[0]) && IsSpace(r[0]);
        JoinNotBlank(parts);
      }
      if |r| > 1 { assert r[1] in r; }
    }
  }

  lemma {:induction false} JoinNotBlank(parts: seq<string>)
    requires parts != [] && NormalPart(parts[0])
    ensures !Blank(Join(parts))
  {
    var k := |parts[0]| - 1;
    assert Join(parts)[k] == parts[0][k];
    assert PortableChar(parts[0][k]) && parts[0][k] != ' ';
  }

  lemma RenderNormal(parts: seq<string>)
    requires NormalParts(parts)
    ensures Normalize(Render(parts)) == Some(Render(parts)) && PartsOf(Render(parts)) == parts
  {
    RenderRelative(parts);
    if parts == [] {
      assert Split(".") == ["."] by { SplitPlain("."); }
      assert ["."][..0] == [];
      assert Components(["."]) == Components([]);
    } else {
      forall i | 0 <= i < |parts| ensures '/' !in parts[i] { assert NormalPart(parts[i]); }
      SplitJoin(parts);
      NormalComponents(parts);
    }
  }

  /** Normalizing an accepted scope again changes nothing. */
  lemma NormalizeIdempotent(raw: string)
    requires Normalize(raw).Some?
    ensures Normalize(Normalize(raw).value) == Normalize(raw)
    ensures PartsOf(Normalize(raw).value) == PartsOf(raw)
  {
    PartsNormal(raw);
    RenderNormal(PartsOf(raw));
  }

  // ---------------------------------------------------------------- what is accepted

  /** Gluing the pieces of a text with slashes gives it back. */
  lemma {:induction false} JoinSplit(s: string)
    ensures Join(Split(s)) == s
  {
    if s != "" {
      var rest := Split(s[1..]);
      JoinSplit(s[1..]);
      assert [s[0]] + s[1..] == s;
      if s[0] == '/' {
        assert Split(s)[1..] == rest;
        assert "" + "/" + s[1..] == [s[0]] + s[1..];
      } else {
        JoinCons(s[0], rest);
      }
    }
  }

  lemma {:induction false} JoinCons(c: char, parts: seq<string>)
    requires parts != []
    ensures Join([[c] + parts[0]] + parts[1..]) == [c] + Join(parts)
  {
    var longer := [[c] + parts[0]] + parts[1..];
    assert longer[1..] == parts[1..];
    if |parts| > 1 {
      var tail := Join(parts[1..]);
      assert ([c] + parts[0]) + "/" + tail == [c] + (parts[0] + "/" + tail);
    }
  }

  lemma {:induction false} StemExactly(s: string)
    ensures Stem(s) <= s && '.' !in Stem(s)
    ensures |Stem(s)| < |s| ==> s[|Stem(s)|] == '.'
  {
    if s != "" && s[0] != '.' {
      StemExactly(s[1..]);
      assert [s[0]] + s[1..] == s;
    }
  }

  /** `word` is all of `s`, or all of it before its first dot. */
  ghost predicate StemIs(s: string, word: string) {
    && word <= s && '.' !in word
    && (|word| < |s| ==> s[|word|] == '.')
  }

  ghost predicate PortName(s: string, digit: char) {
    '1' <= digit <= '9' && (StemIs(s, "com" + [digit]) || StemIs(s, "lpt" + [digit]))
  }

  ghost predicate DeviceName(s: string) {
    || StemIs(s, "con") || StemIs(s, "prn") || StemIs(s, "aux") || StemIs(s, "nul")
    || exists digit :: PortName(s, digit)
  }

  lemma {:induction false} StemUnique(s: string, word: string)
    ensures StemIs(s, word) <==> word == Stem(s)
  {
    StemExactly(s);
    if StemIs(s, word) {
      if |word| != |Stem(s)| { assert false; }
      assert word == s[..|word|] && Stem(s) == s[..|Stem(s)|];
    }
  }

  lemma {:induction false} ReservedExactly(s: string)
    ensures Reserved(s) <==> DeviceName(s)
  {
    var stem := Stem(s);
    StemUnique(s, "con");
    StemUnique(s, "prn");
    StemUnique(s, "aux");
    StemUnique(s, "nul");
    forall d: char ensures StemIs(s, "com" + [d]) <==> stem == "com" + [d] { StemUnique(s, "com" + [d]); }
    forall d: char ensures StemIs(s, "lpt" + [d]) <==> stem == "lpt" + [d] { StemUnique(s, "lpt" + [d]); }
    if |stem| == 4 {
      assert stem == stem[..3] + [stem[3]];
      if Reserved(s) { assert PortName(s, stem[3]); }
    }
    if digit :| PortName(s, digit) {
      assert stem == "com" + [digit] || stem == "lpt" + [digit];
      assert stem[..3] == "com" || stem[..3] == "lpt";
    }
  }

  const ALPHABET := "abcdefghijklmnopqrstuvwxyz"

  ghost predicate LowercaseOf(r: string, s: string) {
    && |r| == |s|
    && (forall i :: 0 <= i < |s| && 'A' <= s[i] <= 'Z' ==> r[i] == ALPHABET[s[i] as int - 'A' as int])
    && (forall i :: 0 <= i < |s| && !('A' <= s[i] <= 'Z') ==> r[i] == s[i])
  }

  lemma AlphabetAt(c: char)
    requires 'A' <= c <= 'Z'
    ensures ALPHABET[c as int - 'A' as int] == LowerChar(c)
  {
    assert |ALPHABET| == 26;
  }

  lemma {:induction false} LowerExactly(s: string)
    ensures LowercaseOf(Lower(s), s)
  {
    forall i | 0 <= i < |s| && 'A' <= s[i] <= 'Z'
      ensures Lower(s)[i] == ALPHABET[s[i] as int - 'A' as int]
    {
      AlphabetAt(s[i]);
    }
  }

  /** An empty piece or a dot names nothing. */
  predicate Names(s: string) {
    s != "" && s != "."
  }

  /** A name every system can hold. */
  ghost predicate NameAccepted(s: string) {
    && s != "" && s[|s| - 1] != '.' && s[|s| - 1] != ' '
    && (forall i :: 0 <= i < |s| ==> ' ' <= s[i] <= '~' && s[i] !in "<>:\"|?*~")
    && forall lower :: LowercaseOf(lower, s) ==> !DeviceName(lower)
  }

  lemma {:induction false} LowercaseUnique(r: string, s: string)
    requires LowercaseOf(r, s)
    ensures r == Lower(s)
  {
    LowerExactly(s);
    forall i | 0 <= i < |s| ensures r[i] == Lower(s)[i] { }
  }

  lemma {:induction false} NameExactly(s: string)
    requires s != ""
    ensures Portable(s) <==> NameAccepted(s)
  {
    LowerExactly(s);
    ReservedExactly(Lower(s));
    forall lower | LowercaseOf(lower, s) ensures lower == Lower(s) { LowercaseUnique(lower, s); }
    assert '~' as int == 126 && ' ' as int == 32 && '~' in FORBIDDEN;
  }

  ghost predicate PiecesAccepted(pieces: seq<string>) {
    forall i :: 0 <= i < |pieces| && Names(pieces[i]) ==> NameAccepted(pieces[i])
  }

  /** `kept` holds the lowercase forms of the pieces that name something, in order. */
  ghost predicate KeptNames(kept: seq<string>, pieces: seq<string>) {
    var named := Filter(pieces, Names);
    && |kept| == |named|
    && forall i :: 0 <= i < |kept| ==> LowercaseOf(kept[i], named[i])
  }

  lemma {:induction false} ComponentsExactly(pieces: seq<string>)
    ensures Components(pieces).Some? <==> PiecesAccepted(pieces)
    ensures Components(pieces).Some? ==> KeptNames(Components(pieces).value, pieces)
  {
    if pieces != [] {
      var front, last := pieces[..|pieces| - 1], pieces[|pieces| - 1];
      ComponentsExactly(front);
      LowerExactly(last);
      if Names(last) { NameExactly(last); }
      assert pieces == front + [last];
      assert PiecesAccepted(pieces) <==> PiecesAccepted(front) && (Names(last) ==> NameAccepted(last));
    }
  }

  ghost predicate CutAtSlashes(raw: string, pieces: seq<string>) {
    && pieces != [] && Join(pieces) == raw
    && forall i :: 0 <= i < |pieces| ==> '/' !in pieces[i]
  }

  ghost predicate WorkspaceRelative(raw: string) {
    && HasInk(raw) && raw[0] != '/' && '\\' !in raw
    && (|raw| >= 2 ==> raw[1] != ':')
  }

  /** However a text is cut at its slashes, it is accepted exactly when it is relative and each piece that names
      something is portable; the normal form joins the lowercase names, or is a dot when there are none. */
  lemma {:induction false} NormalizeExactly(raw: string, pieces: seq<string>)
    requires CutAtSlashes(raw, pieces)
    ensures Normalize(raw).Some? <==> WorkspaceRelative(raw) && PiecesAccepted(pieces)
    ensures Normalize(raw).Some? ==> KeptNames(PartsOf(raw), pieces)
    ensures Normalize(raw).Some? ==> Normalize(raw).value == if PartsOf(raw) == [] then "." else Join(PartsOf(raw))
  {
    SplitJoin(pieces);
    ComponentsExactly(pieces);
  }

  /** Every text can be cut so. */
  lemma CanBeCut(raw: string)
    ensures exists pieces: seq<string> :: CutAtSlashes(raw, pieces)
  {
    JoinSplit(raw);
    forall i | 0 <= i < |Split(raw)| ensures '/' !in Split(raw)[i] { SplitParts(raw, i); }
    assert CutAtSlashes(raw, Split(raw));
  }

  // ---------------------------------------------------------------- overlap

  /** The text test: equal, or one is the other followed by a slash, or either is the root. */
  function Overlap(left: string, right: string): Option<bool> {
    match (Normalize(left), Normalize(right))
    case (Some(l), Some(r)) => Some(
      l == "." || r == "." || l == r || r + "/" <= l || l + "/" <= r)
    case _ => None
  }

  /** The components lead the path. */
  ghost predicate Leads(parts: seq<string>, path: seq<string>) {
    parts <= path
  }

  /** A workspace path lies under a scope when the scope's components lead it. */
  ghost predicate Under(path: seq<string>, scope: string)
    requires Normalize(scope).Some?
  {
    Leads(PartsOf(scope), path)
  }

  lemma {:induction false} SplitNormal(parts: seq<string>)
    requires parts != [] && NormalParts(parts)
    ensures Split(Join(parts)) == parts
  {
    forall i | 0 <= i < |parts| ensures '/' !in parts[i] { assert NormalPart(parts[i]); }
    SplitJoin(parts);
  }

  lemma {:induction false} TextPrefixMeansParts(a: seq<string>, b: seq<string>)
    requires a != [] && b != [] && NormalParts(a) && NormalParts(b)
    requires Join(a) + "/" <= Join(b)
    ensures a <= b
  {
    hide Split, Join, NormalParts;
    SplitNormal(a);
    SplitNormal(b);
    var tail := Join(b)[|Join(a)| + 1..];
    assert Join(b) == Join(a) + "/" + tail;
    SplitConcat(Join(a), tail);
    assert b == a + Split(tail);
  }

  lemma {:induction false} PartsPrefixMeansText(a: seq<string>, b: seq<string>)
    requires a != [] && a < b
    ensures Join(a) + "/" <= Join(b)
  {
    assert b == a + b[|a|..];
    JoinConcat(a, b[|a|..]);
  }

  lemma PartsComparable(a: seq<string>, b: seq<string>)
    ensures (exists path :: Leads(a, path) && Leads(b, path)) <==> a <= b || b <= a
  {
    if path :| Leads(a, path) && Leads(b, path) {
      if |a| <= |b| { assert a == b[..|a|]; } else { assert b == a[..|b|]; }
    }
    if a <= b { assert Leads(a, b) && Leads(b, b); }
    if b <= a { assert Leads(a, a) && Leads(b, a); }
  }

  /** On normal forms the text test compares components. */
  lemma OverlapComparesParts(a: seq<string>, b: seq<string>)
    requires NormalParts(a) && NormalParts(b)
    ensures (Render(a) == "." || Render(b) == "." || Render(a) == Render(b)
             || Render(b) + "/" <= Render(a) || Render(a) + "/" <= Render(b)) <==> a <= b || b <= a
  {
    if a == [] {
      assert Render(a) == "." && a <= b;
    } else if b == [] {
      assert Render(b) == "." && b <= a;
    } else {
      RenderRoot(a);
      RenderRoot(b);
      if Join(a) == Join(b) { SplitNormal(a); SplitNormal(b); }
      if Join(a) + "/" <= Join(b) { TextPrefixMeansParts(a, b); }
      if Join(b) + "/" <= Join(a) { TextPrefixMeansParts(b, a); }
      if a < b { PartsPrefixMeansText(a, b); }
      if b < a { PartsPrefixMeansText(b, a); }
      if |a| == |b| && (a <= b || b <= a) { assert a == b; }
    }
  }

  /** Two accepted scopes overlap in text exactly when some workspace path lies under both. */
  lemma OverlapMeansSharedSubtree(left: string, right: string)
    requires Normalize(left).Some? && Normalize(right).Some?
    ensures Overlap(left, right).Some?
    ensures Overlap(left, right).value <==> exists path :: Under(path, left) && Under(path, right)
  {
    var a, b := PartsOf(left), PartsOf(right);
    PartsNormal(left);
    PartsNormal(right);
    OverlapComparesParts(a, b);
    PartsComparable(a, b);
    if path :| Under(path, left) && Under(path, right) {
      assert Leads(a, path) && Leads(b, path);
    }
    if path :| Leads(a, path) && Leads(b, path) {
      assert Under(path, left) && Under(path, right);
    }
  }

  lemma RenderRoot(parts: seq<string>)
    requires parts != [] && NormalParts(parts)
    ensures Render(parts) != "."
  {
    assert NormalPart(parts[0]);
    var k := |parts[0]| - 1;
    assert |Join(parts)| > k && Join(parts)[k] == parts[0][k];
  }
}

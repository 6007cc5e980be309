/**
 The marker manifest read by `setupMarkers`: a count, then for each marker a
 pattern-file line (blank lines before it are skipped), a type token
 (`SINGLE` or `MULTI`) and, for `SINGLE`, three numeric fields.

 The file is a character stream with a read position and an end-of-file
 flag, read with the three extractions the loader uses: `getline`, `>>` into
 a string and `>>` into an int.  The three `double` fields are kept as the
 text of their tokens.
 */
module Manifest {
  import opened Wrappers
  import opened Markers
  import opened SeqLemmas

  // ---------------------------------------------------------------------
  // trim

  /** Index of the last character of `s` not in `drop`, or -1 (find_last_not_of; -1 is npos). */
  function LastNotOf(s: string, drop: string): (i: int)
    ensures -1 <= i < |s|
    ensures i >= 0 ==> s[i] !in drop
    ensures forall k :: i < k < |s| ==> s[k] in drop
  {
    if s == [] then -1
    else if s[|s| - 1] !in drop then |s| - 1
    else LastNotOf(s[..|s| - 1], drop)
  }

  /** Index of the first character of `s` not in `drop`, or |s| (find_first_not_of; |s| stands for npos). */
  function FirstNotOf(s: string, drop: string): (i: nat)
    ensures i <= |s|
    ensures i < |s| ==> s[i] !in drop
    ensures forall k :: 0 <= k < i ==> s[k] in drop
  {
    if s == [] then 0
    else if s[0] !in drop then 0
    else 1 + FirstNotOf(s[1..], drop)
  }

  /**
   `trim(s, drop)`: the pair (returned value, new value of the argument).
   The argument is only cut at its end; the value returned is cut at both
   ends (TrimSpec).
   */
  function Trim(s: string, drop: string): (r: (string, string))
    ensures |r.0| <= |r.1| <= |s|
  {
    var s' := s[..LastNotOf(s, drop) + 1];
    (s'[FirstNotOf(s', drop)..], s')
  }

  /** Each cut of `trim` removes exactly the longest run of `drop` characters at its end of the string. */
  lemma TrimSpec(s: string, drop: string)
    ensures var (t, s') := Trim(s, drop);
      && s' == s[..|s'|]
      && (forall k :: |s'| <= k < |s| ==> s[k] in drop)
      && (s' == [] || s'[|s'| - 1] !in drop)
      && t == s'[|s'| - |t|..]
      && (forall k :: 0 <= k < |s'| - |t| ==> s'[k] in drop)
      && (t == [] || t[0] !in drop)
  {
  }

  /** Trimming keeps nothing exactly when every character is to be dropped. */
  lemma TrimEmpty(s: string, drop: string)
    ensures Trim(s, drop).0 == [] <==> forall k :: 0 <= k < |s| ==> s[k] in drop
  {
    TrimSpec(s, drop);
    var (t, s') := Trim(s, drop);
    if t == [] {
      assert s' == [];
    } else {
      assert s[|s'| - |t|] == t[0];
    }
  }

  /** The argument keeps its leading spaces; only the returned value loses them. */
  lemma TrimExample()
    ensures Trim("  foo.patt  ", " ") == ("foo.patt", "  foo.patt")
    ensures Trim("   ", " ") == ("", "")
  {
    var s := "  foo.patt  ";
    assert s[..11] == "  foo.patt ";
    assert s[..11][..10] == "  foo.patt";
    assert LastNotOf(s, " ") == 9;
    var s' := "  foo.patt";
    assert s[..10] == s';
    assert s'[1..] == " foo.patt" && s'[1..][1..] == "foo.patt";
    assert FirstNotOf(s', " ") == 2;
    assert s'[2..] == "foo.patt";
    assert "   "[..2] == "  " && "  "[..1] == " " && " "[..0] == "";
    assert LastNotOf("   ", " ") == -1;
  }

  // ---------------------------------------------------------------------
  // the input stream

  datatype StreamState = StreamState(text: string, pos: nat, eof: bool)
  type Stream = s: StreamState | s.pos <= |s.text| witness StreamState("", 0, false)

  /** The characters `>>` skips (the C locale's isspace). */
  predicate IsSpace(c: char)
  {
    c == ' ' || c == '\t' || c == '\n' || c == '\r' || c == 11 as char || c == 12 as char
  }

  predicate IsDigit(c: char)
  {
    '0' <= c <= '9'
  }

  /** First position at or after `p` holding a non-space, or the end. */
  function SkipSpace(text: string, p: nat): (q: nat)
    requires p <= |text|
    ensures p <= q <= |text|
    decreases |text| - p
  {
    if p < |text| && IsSpace(text[p]) then SkipSpace(text, p + 1) else p
  }

  /** First position at or after `p` holding a space, or the end. */
  function WordEnd(text: string, p: nat): (q: nat)
    requires p <= |text|
    ensures p <= q <= |text|
    decreases |text| - p
  {
    if p < |text| && !IsSpace(text[p]) then WordEnd(text, p + 1) else p
  }

  /** First position at or after `p` holding a newline, or the end. */
  function LineEnd(text: string, p: nat): (q: nat)
    requires p <= |text|
    ensures p <= q <= |text|
    decreases |text| - p
  {
    if p < |text| && text[p] != '\n' then LineEnd(text, p + 1) else p
  }

  /** SkipSpace passes over spaces only and stops at a non-space or the end. */
  lemma {:induction false} SkipSpaceSpec(text: string, p: nat)
    requires p <= |text|
    ensures forall k :: p <= k < SkipSpace(text, p) ==> IsSpace(text[k])
    ensures SkipSpace(text, p) < |text| ==> !IsSpace(text[SkipSpace(text, p)])
    decreases |text| - p
  {
    if p < |text| && IsSpace(text[p]) {
      SkipSpaceSpec(text, p + 1);
    }
  }

  /** WordEnd passes over non-spaces only and stops at a space or the end. */
  lemma {:induction false} WordEndSpec(text: string, p: nat)
    requires p <= |text|
    ensures forall k :: p <= k < WordEnd(text, p) ==> !IsSpace(text[k])
    ensures WordEnd(text, p) < |text| ==> IsSpace(text[WordEnd(text, p)])
    decreases |text| - p
  {
    if p < |text| && !IsSpace(text[p]) {
      WordEndSpec(text, p + 1);
    }
  }

  /** LineEnd stops at the first newline at or after `p`, or at the end. */
  lemma {:induction false} LineEndSpec(text: string, p: nat)
    requires p <= |text|
    ensures forall k :: p <= k < LineEnd(text, p) ==> text[k] != '\n'
    ensures LineEnd(text, p) < |text| ==> text[LineEnd(text, p)] == '\n'
    decreases |text| - p
  {
    if p < |text| && text[p] != '\n' {
      LineEndSpec(text, p + 1);
    }
  }

  /** First position at or after `p` holding a non-digit, or the end. */
  function DigitsEnd(text: string, p: nat): (q: nat)
    requires p <= |text|
    ensures p <= q <= |text|
    ensures forall k :: p <= k < q ==> IsDigit(text[k])
    ensures q < |text| ==> !IsDigit(text[q])
    decreases |text| - p
  {
    if p < |text| && IsDigit(text[p]) then DigitsEnd(text, p + 1) else p
  }

  /** The decimal value of a string of digits. */
  function DecimalValue(ds: string): (n: nat)
    requires forall k :: 0 <= k < |ds| ==> IsDigit(ds[k])
  {
    if ds == [] then 0
    else
      assert IsDigit(ds[|ds| - 1]);
      10 * DecimalValue(ds[..|ds| - 1]) + ((ds[|ds| - 1] as int) - ('0' as int))
  }

  /**
   `getline`: the characters up to the next newline, which is consumed.  A
   line that runs into the end of the text sets end-of-file, and so does a
   read at the very end, which yields the empty string.
   */
  function GetLine(st: Stream): (r: (string, Stream))
    requires !st.eof
    ensures r.1.text == st.text
    ensures r.1.pos > st.pos || (r.1.pos == st.pos && r.1.eof)
  {
    var e := LineEnd(st.text, st.pos);
    if e < |st.text| then (st.text[st.pos..e], StreamState(st.text, e + 1, false))
    else (st.text[st.pos..e], StreamState(st.text, e, true))
  }

  /**
   `getline` returns the text from the read position up to, not including,
   the next newline; it sets end-of-file exactly when no newline is left,
   and otherwise resumes after the newline.
   */
  lemma GetLineSpec(st: Stream)
    requires !st.eof
    ensures var (line, st') := GetLine(st);
      && st.pos + |line| <= |st.text| && line == st.text[st.pos..st.pos + |line|]
      && '\n' !in line
      && (st'.eof <==> (forall k :: st.pos <= k < |st.text| ==> st.text[k] != '\n'))
      && (!st'.eof ==> st'.pos == st.pos + |line| + 1)
  {
    LineEndSpec(st.text, st.pos);
  }

  /**
   `>>` into a string: skip spaces, then take characters up to the next
   space.  When only spaces are left, end-of-file is set and the string
   keeps its previous value `prev`; so it does when end-of-file was already
   set.  A word that runs into the end of the text sets end-of-file.
   */
  function ReadWord(st: Stream, prev: string): (r: (string, Stream))
    ensures r.1.text == st.text && r.1.pos >= st.pos
    ensures st.eof ==> r == (prev, st)
    ensures !st.eof && r.1.pos < |st.text| ==> !r.1.eof
  {
    if st.eof then (prev, st)
    else
      var q := SkipSpace(st.text, st.pos);
      if q == |st.text| then (prev, StreamState(st.text, q, true))
      else
        var e := WordEnd(st.text, q);
        (st.text[q..e], StreamState(st.text, e, e == |st.text|))
  }

  /**
   When a non-space is left to read, the word `>>` reads is a whole token:
   not empty, without spaces, and ended by a space or the end.
   */
  lemma ReadWordSpec(st: Stream, prev: string)
    ensures var (w, st') := ReadWord(st, prev);
      !st.eof && SkipSpace(st.text, st.pos) < |st.text| ==>
        && w != [] && (forall k :: 0 <= k < |w| ==> !IsSpace(w[k]))
        && |w| <= st'.pos && st'.text[st'.pos - |w|..st'.pos] == w
        && (st'.pos < |st'.text| ==> IsSpace(st'.text[st'.pos]))
  {
    if !st.eof {
      SkipSpaceSpec(st.text, st.pos);
      var q := SkipSpace(st.text, st.pos);
      if q < |st.text| {
        WordEndSpec(st.text, q);
      }
    }
  }

  /**
   `>>` into an int: skip spaces, an optional sign, then the longest run of
   decimal digits.  Without digits the read fails and yields 0, after which
   the loader's loop does not run.
   */
  function ReadInt(st: Stream): (r: (int, Stream))
    ensures r.1.text == st.text && r.1.pos >= st.pos
    ensures st.eof ==> r == (0, st)
  {
    if st.eof then (0, st)
    else
      var q := SkipSpace(st.text, st.pos);
      if q == |st.text| then (0, StreamState(st.text, q, true))
      else
        var a := if st.text[q] == '-' || st.text[q] == '+' then q + 1 else q;
        var e := DigitsEnd(st.text, a);
        if e == a then (0, StreamState(st.text, q, a == |st.text|))
        else
          var n: int := DecimalValue(st.text[a..e]);
          (if st.text[q] == '-' then -n else n, StreamState(st.text, e, e == |st.text|))
  }

  /**
   The blank-line skipping of the loader: while `trim(name)` is empty and
   the stream is not at end-of-file, read the next line into `name`.  Each
   test of the condition right-trims `name` itself.
   */
  function ReadName(st: Stream, name: string): (r: (string, Stream))
    ensures r.1.text == st.text
    ensures Trim(r.0, " ").0 != [] || r.1.eof
    decreases |st.text| - st.pos, if st.eof then 0 else 1
  {
    var trimmed := Trim(name, " ");
    if trimmed.0 != [] || st.eof then (trimmed.1, st)
    else
      var next := GetLine(st);
      ReadName(next.1, next.0)
  }

  // ---------------------------------------------------------------------
  // entries

  /** One manifest entry as the loader reads it; the numeric fields are empty unless the type is SINGLE. */
  datatype Entry = Entry(name: string, kind: string, width: string, centerX: string, centerY: string)

  const SingleType := "SINGLE"
  const MultiType := "MULTI"

  /** The three extractions after SINGLE: the width and the two centre coordinates, each read as a word. */
  function SingleFields(st: Stream): (r: (string, string, string, Stream))
    ensures r.3.text == st.text
  {
    var (w, st3) := ReadWord(st, "");
    var (cx, st4) := ReadWord(st3, "");
    var (cy, st5) := ReadWord(st4, "");
    (w, cx, cy, st5)
  }

  /**
   One entry read from `st`: the pattern name, the type word (a failed read
   keeps `prevType`) and, for a SINGLE entry, the width and the centre.
   */
  function ReadEntry(st: Stream, prevType: string): (r: (Entry, Stream))
    ensures r.1.text == st.text
  {
    var (name, st1) := ReadName(st, "");
    var (kind, st2) := ReadWord(st1, prevType);
    if kind == SingleType then
      var (w, cx, cy, st5) := SingleFields(st2);
      (Entry(name, kind, w, cx, cy), st5)
    else
      (Entry(name, kind, "", "", ""), st2)
  }

  /**
   The entries the loop reads from `st` while `remaining` markers are still
   announced and end-of-file is not set; `prevType` is the type string left
   by the previous entry.  Entries after a failed one are read here too: the
   loader never reaches them, and `Register` discards them.
   */
  function Entries(st: Stream, remaining: int, prevType: string): (es: seq<Entry>)
    ensures |es| <= if remaining < 0 then 0 else remaining
    decreases if remaining < 0 then 0 else remaining
  {
    if remaining <= 0 || st.eof then []
    else
      var (e, st') := ReadEntry(st, prevType);
      [e] + Entries(st', remaining - 1, e.kind)
  }

  /** The loop's first entry, when one is still announced and end-of-file is not set. */
  lemma EntriesStep(st: Stream, remaining: int, prevType: string)
    requires remaining > 0 && !st.eof
    ensures Entries(st, remaining, prevType)
         == [ReadEntry(st, prevType).0] + Entries(ReadEntry(st, prevType).1, remaining - 1, ReadEntry(st, prevType).0.kind)
  {
  }

  /** The entries of a whole manifest: the count, then that many entries at most. */
  function ManifestEntries(text: string): seq<Entry>
  {
    var (count, st) := ReadInt(StreamState(text, 0, false));
    Entries(st, count, "")
  }

  // ---------------------------------------------------------------------
  // registration

  /** The marker `addSingleMarker` / `addMultiMarker` would append for an entry, or None when the entry fails. */
  function Configure(e: Entry, loader: Loader): (r: Option<Marker>)
    ensures r.Some? ==> r.value.Single? == (e.kind == SingleType)
    ensures r.Some? ==> e.kind == SingleType || e.kind == MultiType
    ensures r.Some? && r.value.Single? ==>
              && loader.single(e.name, e.width, e.centerX, e.centerY) == Some(r.value.patternID)
              && r.value == Single(e.name, e.width, e.centerX, e.centerY, r.value.patternID, [])
    ensures r.Some? && r.value.Multi? ==> r.value == Multi(e.name, [])
    ensures e.kind == SingleType ==> (r.None? <==> loader.single(e.name, e.width, e.centerX, e.centerY).None?)
    ensures e.kind == MultiType ==> (r.None? <==> !loader.multi(e.name))
  {
    if e.kind == SingleType then
      match loader.single(e.name, e.width, e.centerX, e.centerY)
      case None => None
      case Some(id) => Some(Single(e.name, e.width, e.centerX, e.centerY, id, []))
    else if e.kind == MultiType then
      if loader.multi(e.name) then Some(Multi(e.name, [])) else None
    else None
  }

  /** The outcome of registering a list of entries: the markers appended, and whether all succeeded. */
  datatype Registration = Registration(added: seq<Marker>, ok: bool)

  /** Register entries in order, stopping at the first that fails. */
  function Register(es: seq<Entry>, loader: Loader): Registration
  {
    if es == [] then Registration([], true)
    else
      match Configure(es[0], loader)
      case None => Registration([], false)
      case Some(m) =>
        var rest := Register(es[1..], loader);
        Registration([m] + rest.added, rest.ok)
  }

  /**
   Registration stops at the first entry that fails: the markers appended
   are those of the entries before it, in file order, none is rolled back,
   and the load succeeds exactly when no entry fails.
   */
  lemma {:induction false} RegisterStopsAtFirstFailure(es: seq<Entry>, loader: Loader)
    ensures |Register(es, loader).added| <= |es|
    ensures forall k :: 0 <= k < |Register(es, loader).added| ==>
              Configure(es[k], loader) == Some(Register(es, loader).added[k])
    ensures Register(es, loader).ok <==> |Register(es, loader).added| == |es|
    ensures !Register(es, loader).ok ==> Configure(es[|Register(es, loader).added|], loader).None?
  {
    if es != [] {
      RegisterStopsAtFirstFailure(es[1..], loader);
      var rest := Register(es[1..], loader);
      assert forall k :: 1 <= k < |es| ==> es[k] == es[1..][k - 1];
    }
  }

  /** Registering a list in two pieces is registering the first, then (only if it succeeded) the second. */
  lemma {:induction false} RegisterAppend(a: seq<Entry>, b: seq<Entry>, loader: Loader)
    ensures Register(a + b, loader) ==
              if Register(a, loader).ok
              then Registration(Register(a, loader).added + Register(b, loader).added, Register(b, loader).ok)
              else Register(a, loader)
  {
    if a == [] {
      assert a + b == b;
    } else {
      assert (a + b)[0] == a[0];
      assert (a + b)[1..] == a[1..] + b;
      if Configure(a[0], loader).Some? {
        RegisterAppend(a[1..], b, loader);
      }
    }
  }

  /**
   One more entry after a successful prefix: a failing entry ends the
   registration there, whatever follows it, and a succeeding one appends
   its marker.
   */
  lemma RegisterStep(done: seq<Entry>, e: Entry, rest: seq<Entry>, loader: Loader)
    requires Register(done, loader).ok
    ensures Configure(e, loader).None? ==>
              Register(done + ([e] + rest), loader) == Registration(Register(done, loader).added, false)
    ensures Configure(e, loader).Some? ==>
              Register(done + [e], loader) == Registration(Register(done, loader).added + [Configure(e, loader).value], true)
  {
    assert ([e] + rest)[0] == e;
    RegisterAppend(done, [e] + rest, loader);
    assert [e][1..] == [];
    RegisterAppend(done, [e], loader);
  }

  /** A string that neither starts nor ends with a character to drop is left as it is. */
  lemma TrimKeeps(s: string, drop: string)
    requires s != [] && s[0] !in drop && s[|s| - 1] !in drop
    ensures Trim(s, drop) == (s, s)
  {
    assert LastNotOf(s, drop) == |s| - 1;
    assert s[..|s|] == s;
    assert FirstNotOf(s, drop) == 0;
  }

  /** SkipSpace stops exactly at the first non-space. */
  lemma {:induction false} SkipSpaceIs(text: string, p: nat, q: nat)
    requires p <= q <= |text|
    requires forall k :: p <= k < q ==> IsSpace(text[k])
    requires q < |text| ==> !IsSpace(text[q])
    ensures SkipSpace(text, p) == q
    decreases q - p
  {
    if p < q {
      SkipSpaceIs(text, p + 1, q);
    }
  }

  /** WordEnd stops exactly at the first space. */
  lemma {:induction false} WordEndIs(text: string, p: nat, q: nat)
    requires p <= q <= |text|
    requires forall k :: p <= k < q ==> !IsSpace(text[k])
    requires q < |text| ==> IsSpace(text[q])
    ensures WordEnd(text, p) == q
    decreases q - p
  {
    if p < q {
      WordEndIs(text, p + 1, q);
    }
  }

  /** LineEnd stops exactly at the first newline. */
  lemma {:induction false} LineEndIs(text: string, p: nat, q: nat)
    requires p <= q < |text|
    requires forall k :: p <= k < q ==> text[k] != '\n'
    requires text[q] == '\n'
    ensures LineEnd(text, p) == q
    decreases q - p
  {
    if p < q {
      LineEndIs(text, p + 1, q);
    }
  }

  /** `getline` at the start of a known line returns that line and moves past its newline. */
  lemma GetLineAt(text: string, p: nat, pre: string, line: string, post: string)
    requires text == pre + line + "\n" + post && p == |pre|
    requires forall k :: 0 <= k < |line| ==> line[k] != '\n'
    ensures GetLine(StreamState(text, p, false)) == (line, StreamState(text, p + |line| + 1, false))
  {
    assert text[|pre| + |line|] == '\n';
    assert forall k :: |pre| <= k < |pre| + |line| ==> text[k] == line[k - |pre|];
    LineEndIs(text, |pre|, |pre| + |line|);
    assert text[|pre|..|pre| + |line|] == line;
  }

  /** `>>` into a string in front of known spaces and a known word returns that word. */
  lemma ReadWordAt(text: string, p: nat, q: nat, atEnd: bool, pre: string, spaces: string, word: string, post: string, prev: string)
    requires text == pre + spaces + word + post && p == |pre| && q == p + |spaces| + |word|
    requires atEnd <==> |post| == 0
    requires forall k :: 0 <= k < |spaces| ==> IsSpace(spaces[k])
    requires word != [] && forall k :: 0 <= k < |word| ==> !IsSpace(word[k])
    requires post == [] || IsSpace(post[0])
    ensures ReadWord(StreamState(text, p, false), prev)
         == (word, StreamState(text, q, atEnd))
  {
    var a, b := |pre| + |spaces|, |pre| + |spaces| + |word|;
    assert forall k :: |pre| <= k < a ==> text[k] == spaces[k - |pre|];
    assert forall k :: a <= k < b ==> text[k] == word[k - a];
    assert b < |text| ==> text[b] == post[0];
    SkipSpaceIs(text, |pre|, a);
    WordEndIs(text, a, b);
    assert text[a..b] == word;
  }

  /** DigitsEnd stops exactly at the first non-digit. */
  lemma {:induction false} DigitsEndIs(text: string, p: nat, q: nat)
    requires p <= q <= |text|
    requires forall k :: p <= k < q ==> IsDigit(text[k])
    requires q < |text| ==> !IsDigit(text[q])
    ensures DigitsEnd(text, p) == q
    decreases q - p
  {
    if p < q {
      DigitsEndIs(text, p + 1, q);
    }
  }

  /** `>>` into an int in front of known spaces and a known run of digits returns their decimal value. */
  lemma ReadIntAt(text: string, p: nat, q: nat, atEnd: bool, pre: string, spaces: string, digits: string, post: string)
    requires text == pre + spaces + digits + post && p == |pre| && q == p + |spaces| + |digits|
    requires atEnd <==> |post| == 0
    requires forall k :: 0 <= k < |spaces| ==> IsSpace(spaces[k])
    requires digits != [] && forall k :: 0 <= k < |digits| ==> IsDigit(digits[k])
    requires post == [] || !IsDigit(post[0])
    ensures text[p + |spaces|..q] == digits
    ensures ReadInt(StreamState(text, p, false)) == (DecimalValue(text[p + |spaces|..q]), StreamState(text, q, atEnd))
  {
    var a := |pre| + |spaces|;
    assert forall k :: |pre| <= k < a ==> text[k] == spaces[k - |pre|];
    assert forall k :: a <= k < q ==> text[k] == digits[k - a];
    assert q < |text| ==> text[q] == post[0];
    SkipSpaceIs(text, |pre|, a);
    assert text[a] == digits[0] && text[a] != '-' && text[a] != '+';
    DigitsEndIs(text, a, q);
    assert text[a..q] == digits;
  }

  // ---------------------------------------------------------------------
  // the entries of a well-formed manifest

  /** `getline` at a position whose line ends in a newline at `e` returns the text up to `e` and resumes after it. */
  lemma GetLineFrom(text: string, p: nat, e: nat)
    requires p <= e < |text|
    requires forall k :: p <= k < e ==> text[k] != '\n'
    requires text[e] == '\n'
    ensures GetLine(StreamState(text, p, false)) == (text[p..e], StreamState(text, e + 1, false))
  {
    LineEndIs(text, p, e);
  }

  /** `>>` at `p`, in front of spaces up to `a` and a token up to `q`, returns the token and stops at its end. */
  lemma ReadWordFrom(text: string, p: nat, a: nat, q: nat, prev: string)
    requires p <= a < q <= |text|
    requires forall k :: p <= k < a ==> IsSpace(text[k])
    requires forall k :: a <= k < q ==> !IsSpace(text[k])
    requires q < |text| ==> IsSpace(text[q])
    ensures ReadWord(StreamState(text, p, false), prev) == (text[a..q], StreamState(text, q, q == |text|))
  {
    SkipSpaceIs(text, p, a);
    WordEndIs(text, a, q);
  }

  /** `>>` into an int at `p`, in front of spaces up to `a` and digits up to `q`, returns their decimal value and stops at their end. */
  lemma ReadIntFrom(text: string, p: nat, a: nat, q: nat)
    requires p <= a < q <= |text|
    requires forall k :: p <= k < a ==> IsSpace(text[k])
    requires forall k :: a <= k < q ==> IsDigit(text[k])
    requires q < |text| ==> !IsDigit(text[q])
    ensures ReadInt(StreamState(text, p, false)) == (DecimalValue(text[a..q]), StreamState(text, q, q == |text|))
  {
    SkipSpaceIs(text, p, a);
    DigitsEndIs(text, a, q);
  }

  /** A string made of spaces only trims to nothing, and so leaves the blank-line loop where it was. */
  lemma {:induction false} ReadNameBlank(st: Stream, blank: string)
    requires forall k :: 0 <= k < |blank| ==> blank[k] == ' '
    ensures ReadName(st, blank) == ReadName(st, "")
  {
    TrimEmpty(blank, " ");
    TrimEmpty("", " ");
    TrimSpec(blank, " ");
    assert Trim(blank, " ").1 == [];
    assert Trim("", " ") == ("", "");
  }

  /**
   The blank-line loop skips a line of spaces: reading a name in front of
   it is reading a name after it.
   */
  lemma ReadNameSkipsBlankLine(text: string, p: nat, e: nat)
    requires p <= e < |text| && text[e] == '\n'
    requires forall k :: p <= k < e ==> text[k] == ' '
    ensures ReadName(StreamState(text, p, false), "") == ReadName(StreamState(text, e + 1, false), "")
  {
    assert Trim("", " ") == ("", "");
    GetLineFrom(text, p, e);
    ReadNameBlank(StreamState(text, e + 1, false), text[p..e]);
  }

  /**
   The blank-line loop in front of a name line: the name is the line, cut
   at its end by `trim`, and reading resumes after its newline.
   */
  lemma ReadNameAt(text: string, p: nat, e: nat)
    requires p <= e < |text| && text[e] == '\n'
    requires forall k :: p <= k < e ==> text[k] != '\n'
    requires Trim(text[p..e], " ").0 != []
    ensures ReadName(StreamState(text, p, false), "") == (Trim(text[p..e], " ").1, StreamState(text, e + 1, false))
  {
    assert Trim("", " ") == ("", "");
    GetLineFrom(text, p, e);
  }

  /** A token: a non-empty word without spaces. */
  predicate IsToken(w: string)
  {
    w != [] && forall k :: 0 <= k < |w| ==> !IsSpace(w[k])
  }

  /**
   An entry as a manifest can state it: a name without a newline that
   neither starts nor ends with a space, the type SINGLE with three tokens
   or the type MULTI with none.
   */
  predicate WellFormed(e: Entry)
  {
    && e.name != [] && '\n' !in e.name && e.name[0] != ' ' && e.name[|e.name| - 1] != ' '
    && (e.kind == SingleType || e.kind == MultiType)
    && (e.kind == SingleType ==> IsToken(e.width) && IsToken(e.centerX) && IsToken(e.centerY))
    && (e.kind == MultiType ==> e.width == "" && e.centerX == "" && e.centerY == "")
  }

  /** The name line of an entry, with the newline that ends the line before it. */
  function NameLine(name: string): string
  {
    "\n" + name + "\n"
  }

  /** The numeric fields of an entry as the manifest states them: for SINGLE, three tokens each after one space. */
  function FieldsText(e: Entry): string
  {
    if e.kind == SingleType then " " + e.width + " " + e.centerX + " " + e.centerY else ""
  }

  /**
   The text of an entry in the manifest, starting at the newline that ends
   the line before it: the name line, then the type and, for SINGLE, the
   width and the centre.
   */
  function EntryText(e: Entry): string
  {
    NameLine(e.name) + e.kind + FieldsText(e)
  }

  /** The texts of a list of entries, one after the other. */
  function EntriesText(es: seq<Entry>): string
  {
    if es == [] then "" else EntryText(es[0]) + EntriesText(es[1..])
  }

  /** A slice of `text` from `p` to `q` equal to a + b splits at `m` into a slice equal to a and one equal to b. */
  lemma SliceSplit(text: string, p: nat, m: nat, q: nat, a: string, b: string)
    requires m == p + |a| && q == m + |b| && q <= |text| && text[p..q] == a + b
    ensures text[p..m] == a && text[m..q] == b
  {
    assert text[p..m] == text[p..q][..|a|];
    assert text[m..q] == text[p..q][|a|..];
  }

  /** A slice of `text` from `p` to `q` equal to `s` gives every character of `s` at its offset. */
  lemma SliceChars(text: string, p: nat, q: nat, s: string)
    requires q == p + |s| && q <= |text| && text[p..q] == s
    ensures forall k :: 0 <= k < |s| ==> text[p + k] == s[k]
  {
    forall k | 0 <= k < |s|
      ensures text[p + k] == s[k]
    {
      assert text[p + k] == text[p..q][k];
    }
  }

  /** Every character of a token in `text` is a non-space. */
  lemma TokenChars(text: string, a: nat, q: nat)
    requires a <= q <= |text| && IsToken(text[a..q])
    ensures a < q && forall k :: a <= k < q ==> !IsSpace(text[k])
  {
    forall k | a <= k < q
      ensures !IsSpace(text[k])
    {
      assert text[k] == text[a..q][k - a];
    }
  }

  /**
   The blank-line loop in front of a line that `trim` leaves as it is: the
   name is that line, and reading resumes after its newline.
   */
  lemma ReadNameKept(text: string, p: nat, e: nat, name: string)
    requires p <= e < |text| && text[e] == '\n'
    requires forall k :: p <= k < e ==> text[k] != '\n'
    requires text[p..e] == name && name != [] && name[0] != ' ' && name[|name| - 1] != ' '
    ensures ReadName(StreamState(text, p, false), "") == (name, StreamState(text, e + 1, false))
  {
    TrimKeeps(name, " ");
    assert Trim("", " ") == ("", "");
    GetLineFrom(text, p, e);
  }

  /**
   The blank-line loop at a newline at `p` with a name line up to the
   newline at `e`: it skips the empty rest of the line at `p`, reads the
   name, and resumes after the newline at `e`.
   */
  lemma NameLineFrom(text: string, p: nat, e: nat, name: string)
    requires p < e < |text| && text[p] == '\n' && text[e] == '\n'
    requires forall k :: p + 1 <= k < e ==> text[k] != '\n'
    requires text[p + 1..e] == name && name != [] && name[0] != ' ' && name[|name| - 1] != ' '
    ensures ReadName(StreamState(text, p, false), "") == (name, StreamState(text, e + 1, false))
  {
    ReadNameSkipsBlankLine(text, p, p);
    ReadNameKept(text, p + 1, e, name);
  }

  /** Where the newlines and the name of a name line lie in the slice from `p` to `a` that holds it. */
  lemma NameLayout(text: string, p: nat, e: nat, a: nat, name: string)
    requires '\n' !in name
    requires e == p + |name| + 1 && a == e + 1 && a <= |text| && text[p..a] == NameLine(name)
    ensures text[p] == '\n' && text[e] == '\n' && text[p + 1..e] == name
    ensures forall k :: p + 1 <= k < e ==> text[k] != '\n'
  {
    SliceSplit(text, p, p + 1, a, "\n", name + "\n");
    SliceSplit(text, p + 1, e, a, name, "\n");
    assert text[p] == text[p..p + 1][0];
    assert text[e] == text[e..a][0];
    forall k | p + 1 <= k < e
      ensures text[k] != '\n'
    {
      assert text[k] == name[k - (p + 1)];
    }
  }

  /**
   The blank-line loop at the end of the previous line, in front of a name
   line whose newline is at `e`: it skips the empty rest of that line,
   reads the name, and resumes at `a`, after the name's newline.
   */
  lemma NameLineAt(text: string, p: nat, e: nat, a: nat, name: string)
    requires name != [] && '\n' !in name && name[0] != ' ' && name[|name| - 1] != ' '
    requires e == p + |name| + 1 && a == e + 1 && a <= |text| && text[p..a] == NameLine(name)
    ensures ReadName(StreamState(text, p, false), "") == (name, StreamState(text, a, false))
  {
    NameLayout(text, p, e, a, name);
    NameLineFrom(text, p, e, name);
  }

  /**
   The three extractions after SINGLE at a space at `b`, in front of three
   tokens ending at `c`, `d` and `f`, each after one space: they yield the
   three tokens in order and stop after the last.
   */
  lemma SingleFieldsFrom(text: string, b: nat, c: nat, d: nat, f: nat)
    requires b < c < d < f <= |text|
    requires text[b] == ' ' && text[c] == ' ' && text[d] == ' '
    requires IsToken(text[b + 1..c]) && IsToken(text[c + 1..d]) && IsToken(text[d + 1..f])
    requires f < |text| ==> IsSpace(text[f])
    ensures SingleFields(StreamState(text, b, false))
         == (text[b + 1..c], text[c + 1..d], text[d + 1..f], StreamState(text, f, f == |text|))
  {
    TokenChars(text, b + 1, c);
    TokenChars(text, c + 1, d);
    TokenChars(text, d + 1, f);
    ReadWordFrom(text, b, b + 1, c, "");
    ReadWordFrom(text, c, c + 1, d, "");
    ReadWordFrom(text, d, d + 1, f, "");
  }

  /** Where the pieces of a SINGLE entry's fields lie in the slice from `b` to `f` that holds them: tokens end at `c`, `d` and `f`. */
  lemma FieldsLayout(text: string, b: nat, c: nat, d: nat, f: nat, e: Entry)
    requires e.kind == SingleType
    requires c == b + 1 + |e.width| && d == c + 1 + |e.centerX| && f == d + 1 + |e.centerY|
    requires f <= |text| && text[b..f] == FieldsText(e)
    ensures text[b] == ' ' && text[c] == ' ' && text[d] == ' '
    ensures text[b + 1..c] == e.width && text[c + 1..d] == e.centerX && text[d + 1..f] == e.centerY
  {
    SliceSplit(text, b, d + 1, f, " " + e.width + " " + e.centerX + " ", e.centerY);
    SliceSplit(text, b, d, d + 1, " " + e.width + " " + e.centerX, " ");
    SliceSplit(text, b, c + 1, d, " " + e.width + " ", e.centerX);
    SliceSplit(text, b, c, c + 1, " " + e.width, " ");
    SliceSplit(text, b, b + 1, c, " ", e.width);
    assert text[b] == text[b..b + 1][0];
    assert text[c] == text[c..c + 1][0];
    assert text[d] == text[d..d + 1][0];
  }

  /**
   The three extractions after SINGLE, in front of three tokens each after
   one space: they yield the width, then the two centre coordinates, and
   stop at `q`, after the last.
   */
  lemma SingleFieldsAt(text: string, b: nat, q: nat, e: Entry)
    requires e.kind == SingleType && IsToken(e.width) && IsToken(e.centerX) && IsToken(e.centerY)
    requires q == b + |FieldsText(e)| && q <= |text| && text[b..q] == FieldsText(e)
    requires q < |text| ==> IsSpace(text[q])
    ensures text[b] == ' '
    ensures SingleFields(StreamState(text, b, false)) == (e.width, e.centerX, e.centerY, StreamState(text, q, q == |text|))
  {
    var c := b + 1 + |e.width|;
    var d := c + 1 + |e.centerX|;
    FieldsLayout(text, b, c, d, q, e);
    SingleFieldsFrom(text, b, c, d, q);
  }

  /** Where the name line, the type and the fields of an entry lie in the slice from `p` to `q` that holds it. */
  lemma EntryLayout(text: string, p: nat, a: nat, b: nat, q: nat, e: Entry)
    requires a == p + |e.name| + 2 && b == a + |e.kind| && q == b + |FieldsText(e)|
    requires q <= |text| && text[p..q] == EntryText(e)
    ensures text[p..a] == NameLine(e.name) && text[a..b] == e.kind && text[b..q] == FieldsText(e)
  {
    SliceSplit(text, p, b, q, NameLine(e.name) + e.kind, FieldsText(e));
    SliceSplit(text, p, a, b, NameLine(e.name), e.kind);
  }

  /** Both type words are tokens. */
  lemma KindsAreTokens()
    ensures IsToken(SingleType) && IsToken(MultiType)
  {
    assert SingleType == ['S', 'I', 'N', 'G', 'L', 'E'];
    assert MultiType == ['M', 'U', 'L', 'T', 'I'];
  }

  /**
   Reading one well-formed entry from its text, which ends at `q`, yields
   exactly that entry (name, type, width and centre in that order) and
   stops at `q`, provided a space or the end of the text follows it.
   */
  lemma ReadEntryAt(text: string, p: nat, q: nat, e: Entry, prevType: string)
    requires WellFormed(e)
    requires q == p + |EntryText(e)| && q <= |text| && text[p..q] == EntryText(e)
    requires q < |text| ==> IsSpace(text[q])
    ensures ReadEntry(StreamState(text, p, false), prevType) == (e, StreamState(text, q, q == |text|))
  {
    var n := p + |e.name| + 1;
    var a := n + 1;
    var b := a + |e.kind|;
    EntryLayout(text, p, a, b, q, e);
    NameLineAt(text, p, n, a, e.name);
    KindsAreTokens();
    TokenChars(text, a, b);
    if e.kind == SingleType {
      SingleFieldsAt(text, b, q, e);
      ReadWordFrom(text, a, a, b, prevType);
    } else {
      assert b == q;
      ReadWordFrom(text, a, a, b, prevType);
    }
  }

  /** The text of a non-empty list of entries starts with a newline. */
  lemma EntriesTextStart(es: seq<Entry>)
    requires es != []
    ensures |EntriesText(es)| > 0 && EntriesText(es)[0] == '\n'
  {
    var t := EntryText(es[0]);
    assert t == ['\n'] + (es[0].name + "\n" + es[0].kind + FieldsText(es[0]));
    assert EntriesText(es) == t + EntriesText(es[1..]);
  }

  /** One turn of the loader's loop: an announced entry read from `st`, then the rest of the loop from where it stopped. */
  lemma EntriesCons(st: Stream, st': Stream, remaining: int, prevType: string, e: Entry, rest: seq<Entry>)
    requires remaining == |rest| + 1 && !st.eof && ReadEntry(st, prevType) == (e, st')
    requires Entries(st', |rest|, e.kind) == rest
    ensures Entries(st, remaining, prevType) == [e] + rest
  {
  }

  /**
   Where the first entry lies in the slice from `p` to `q` that holds the
   texts of `es`: it ends at `m`, where the texts of the others start, and
   is followed by a space or the end of the text.
   */
  lemma EntriesLayout(text: string, p: nat, m: nat, q: nat, es: seq<Entry>)
    requires es != [] && m == p + |EntryText(es[0])|
    requires q == p + |EntriesText(es)| && q <= |text| && text[p..q] == EntriesText(es)
    requires q < |text| ==> IsSpace(text[q])
    ensures q == m + |EntriesText(es[1..])|
    ensures text[p..m] == EntryText(es[0]) && text[m..q] == EntriesText(es[1..])
    ensures m < |text| ==> IsSpace(text[m])
  {
    SliceSplit(text, p, m, q, EntryText(es[0]), EntriesText(es[1..]));
    if es[1..] != [] {
      EntriesTextStart(es[1..]);
      assert text[m] == text[m..q][0];
    }
  }

  /**
   The loader's loop over the texts of well-formed entries, one after the
   other and all announced: it reads exactly those entries, in order,
   provided a space or the end of the text follows the last.
   */
  lemma {:induction false} EntriesAt(text: string, p: nat, q: nat, es: seq<Entry>, prevType: string)
    requires forall i :: 0 <= i < |es| ==> WellFormed(es[i])
    requires q == p + |EntriesText(es)| && q <= |text| && text[p..q] == EntriesText(es)
    requires q < |text| ==> IsSpace(text[q])
    ensures Entries(StreamState(text, p, false), |es|, prevType) == es
    decreases |es|
  {
    if es != [] {
      var e, rest := es[0], es[1..];
      var m := p + |EntryText(e)|;
      HeadTail(es);
      EntriesLayout(text, p, m, q, es);
      ReadEntryAt(text, p, m, e, prevType);
      if rest == [] {
        EntriesCons(StreamState(text, p, false), StreamState(text, m, m == |text|), |es|, prevType, e, rest);
      } else {
        forall i | 0 <= i < |rest|
          ensures WellFormed(rest[i])
        {
          assert rest[i] == es[i + 1];
        }
        EntriesAt(text, m, q, rest, e.kind);
        assert m < |text|;
        assert StreamState(text, m, m == |text|) == StreamState(text, m, false);
        EntriesCons(StreamState(text, p, false), StreamState(text, m, false), |es|, prevType, e, rest);
      }
    }
  }

  /**
   A whole manifest made of a decimal count, well-formed entries as many as
   it announces, and a rest that starts with a space: the loader reads
   exactly those entries.
   */
  lemma ManifestEntriesAt(text: string, ds: string, es: seq<Entry>, post: string)
    requires text == ds + EntriesText(es) + post
    requires ds != [] && (forall k :: 0 <= k < |ds| ==> IsDigit(ds[k])) && DecimalValue(ds) == |es|
    requires forall i :: 0 <= i < |es| ==> WellFormed(es[i])
    requires post == [] || IsSpace(post[0])
    ensures ManifestEntries(text) == es
  {
    var d := |ds|;
    var q := d + |EntriesText(es)|;
    ManifestLayout(text, d, q, ds, es, post);
    ReadIntFrom(text, 0, 0, d);
    if es != [] {
      EntriesAt(text, d, q, es, "");
    }
  }

  /** Where the count, the entries and the rest of a manifest lie in its text. */
  lemma ManifestLayout(text: string, d: nat, q: nat, ds: string, es: seq<Entry>, post: string)
    requires text == ds + EntriesText(es) + post && d == |ds| && q == d + |EntriesText(es)|
    requires forall k :: 0 <= k < |ds| ==> IsDigit(ds[k])
    requires post == [] || IsSpace(post[0])
    ensures text[0..d] == ds && text[d..q] == EntriesText(es)
    ensures forall k :: 0 <= k < d ==> IsDigit(text[k])
    ensures es != [] ==> d < |text| && text[d] == '\n'
    ensures q < |text| ==> IsSpace(text[q])
  {
    assert text[0..d] == ds;
    assert text[d..q] == EntriesText(es);
    forall k | 0 <= k < d
      ensures IsDigit(text[k])
    {
      assert text[k] == ds[k];
    }
    if es != [] {
      EntriesTextStart(es);
      assert text[d] == EntriesText(es)[0];
    }
    if q < |text| {
      assert text[q] == post[0];
    }
  }
}

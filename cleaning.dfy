/** The answer cleaning of the grade-school-math loader (`clean` in data.py).
    First every calculator annotation `<<...>>` is deleted, as Python's
    `re.sub(r"<<.*?>>", "", s)` does: scanning left to right, a match starts
    at `<<`, takes the fewest characters other than a newline, and ends at
    the first `>>`; a match is deleted and the scan resumes after it, and where
    no match starts the character is kept. Then every `####` is replaced by
    "The answer is", leftmost first and without overlap, as `str.replace`
    does. */
module AnswerCleaning {
  import opened Wrappers

  const Marker: string := "####"
  const Phrase: string := "The answer is"

  // ---------------------------------------------------------------------
  // The regular expression <<.*?>>
  // ---------------------------------------------------------------------

  /** `.*?>>` can end at `k` in `t` (the text after an opening `<<`): `>>`
      starts at `k` and no newline comes before it. */
  ghost predicate ClosesAt(t: string, k: nat) {
    k + 2 <= |t| && t[k] == '>' && t[k + 1] == '>' && '\n' !in t[..k]
  }

  /** Where the lazy `.*?>>` ends in `t`: the least `k` it can end at, or
      None when a newline or the end of `t` comes before any `>>`. */
  function FindClose(t: string): (r: Option<nat>)
    ensures r.Some? ==> ClosesAt(t, r.value)
    ensures r.Some? ==> forall k :: 0 <= k < r.value ==> !ClosesAt(t, k)
    ensures r.None? ==> forall k: nat :: !ClosesAt(t, k)
  {
    if |t| < 2 then None
    else if t[0] == '>' && t[1] == '>' then
      assert t[..0] == [];
      Some(0)
    else if t[0] == '\n' then
      assert forall k: nat :: 0 < k <= |t| ==> t[..k][0] == '\n';
      None
    else
      var rest := FindClose(t[1..]);
      ClosesAtShift(t);
      match rest
      case None => None
      case Some(k) => Some(k + 1)
  }

  /** Past a first character that is neither a newline nor the start of `>>`,
      the possible ends in `t` are those of `t[1..]`, one further on. */
  lemma ClosesAtShift(t: string)
    requires |t| >= 2 && t[0] != '\n' && !(t[0] == '>' && t[1] == '>')
    ensures !ClosesAt(t, 0)
    ensures forall k: nat :: 1 <= k ==> (ClosesAt(t, k) <==> ClosesAt(t[1..], k - 1))
  {
    forall k: nat | 1 <= k
      ensures ClosesAt(t, k) <==> ClosesAt(t[1..], k - 1)
    {
      if k + 2 <= |t| {
        assert t[..k] == [t[0]] + t[1..][..k - 1];
      }
    }
  }

  /** The pattern matches at the start of `s`. */
  predicate OpensHere(s: string) {
    |s| >= 2 && s[0] == '<' && s[1] == '<' && FindClose(s[2..]).Some?
  }

  /** Some match of the pattern starts somewhere in `s`. */
  predicate HasAnnotation(s: string)
    decreases |s|
  {
    |s| >= 2 && (OpensHere(s) || HasAnnotation(s[1..]))
  }

  /** The pattern matches at position `i` of `s`. */
  predicate OpensAt(s: string, i: nat) {
    i <= |s| && OpensHere(s[i..])
  }

  /** `HasAnnotation` holds exactly when the pattern matches at some position. */
  lemma {:induction false} HasAnnotationIff(s: string)
    ensures HasAnnotation(s) <==> exists i: nat :: OpensAt(s, i)
    decreases |s|
  {
    if |s| >= 2 {
      HasAnnotationIff(s[1..]);
      assert s[0..] == s;
      if exists i: nat :: OpensAt(s, i) {
        var i: nat :| OpensAt(s, i);
        if i == 0 {
          assert OpensHere(s);
        } else {
          assert s[1..][i - 1..] == s[i..];
          assert OpensAt(s[1..], i - 1);
          assert HasAnnotation(s[1..]);
        }
      }
      if exists i: nat :: OpensAt(s[1..], i) {
        var i: nat :| OpensAt(s[1..], i);
        assert s[i + 1..] == s[1..][i..];
        assert OpensAt(s, i + 1);
      }
      if OpensHere(s) {
        assert OpensAt(s, 0);
      }
    } else {
      assert forall i: nat :: i <= |s| ==> |s[i..]| < 2;
    }
  }

  /** `re.sub(r"<<.*?>>", "", s)`. */
  function StripAnnotations(s: string): string
    decreases |s|
  {
    if s == [] then []
    else if |s| >= 2 && s[0] == '<' && s[1] == '<' then
      match FindClose(s[2..])
      case Some(k) => StripAnnotations(s[k + 4..])
      case None => [s[0]] + StripAnnotations(s[1..])
    else [s[0]] + StripAnnotations(s[1..])
  }

  // ---------------------------------------------------------------------
  // str.replace("####", "The answer is")
  // ---------------------------------------------------------------------

  predicate StartsWithMarker(s: string) {
    |s| >= 4 && s[..4] == Marker
  }

  /** `####` occurs somewhere in `s`. */
  predicate ContainsMarker(s: string)
    decreases |s|
  {
    |s| >= 4 && (StartsWithMarker(s) || ContainsMarker(s[1..]))
  }

  /** The marker occupies positions `i` to `i + 3` of `s`. */
  predicate MarkerAt(s: string, i: nat) {
    i <= |s| && StartsWithMarker(s[i..])
  }

  /** `ContainsMarker` holds exactly when the marker occurs at some position. */
  lemma {:induction false} ContainsMarkerIff(s: string)
    ensures ContainsMarker(s) <==> exists i: nat :: MarkerAt(s, i)
    decreases |s|
  {
    if |s| >= 4 {
      ContainsMarkerIff(s[1..]);
      assert s[0..] == s;
      if exists i: nat :: MarkerAt(s, i) {
        var i: nat :| MarkerAt(s, i);
        if i == 0 {
          assert StartsWithMarker(s);
        } else {
          assert s[1..][i - 1..] == s[i..];
          assert MarkerAt(s[1..], i - 1);
          assert ContainsMarker(s[1..]);
        }
      }
      if exists i: nat :: MarkerAt(s[1..], i) {
        var i: nat :| MarkerAt(s[1..], i);
        assert s[i + 1..] == s[1..][i..];
        assert MarkerAt(s, i + 1);
      }
      if StartsWithMarker(s) {
        assert MarkerAt(s, 0);
      }
    } else {
      assert forall i: nat :: i <= |s| ==> |s[i..]| < 4;
    }
  }

  /** `s.replace("####", "The answer is")`. */
  function ReplaceMarker(s: string): string
    decreases |s|
  {
    if s == [] then []
    else if StartsWithMarker(s) then Phrase + ReplaceMarker(s[4..])
    else [s[0]] + ReplaceMarker(s[1..])
  }

  // ---------------------------------------------------------------------
  // clean
  // ---------------------------------------------------------------------

  /** `clean(answer)`: no `####` and no annotation is left in the result. */
  function Clean(answer: string): (r: string)
    ensures !ContainsMarker(r)
    ensures !HasAnnotation(r)
  {
    var stripped := StripAnnotations(answer);
    ReplaceNoMarker(stripped);
    StripNoAnnotation(answer);
    ReplaceNoNewAnnotation(stripped);
    ReplaceMarker(stripped)
  }

  /** `clean` changes nothing exactly when there is no `####` and no `<<`
      followed on the same line by `>>`. */
  lemma CleanFixedPoint(s: string)
    ensures Clean(s) == s <==> !ContainsMarker(s) && !HasAnnotation(s)
  {
    if !ContainsMarker(s) && !HasAnnotation(s) {
      StripIdentity(s);
      ReplaceIdentity(s);
    }
  }

  /** Cleaning twice is cleaning once. */
  lemma CleanIdempotent(s: string)
    ensures Clean(Clean(s)) == Clean(s)
  {
    CleanFixedPoint(Clean(s));
  }

  /** A deletion never crosses a line and `####` never spans one, so an
      answer is cleaned line by line. */
  lemma CleanByLine(a: string, b: string)
    ensures Clean(a + "\n" + b) == Clean(a) + "\n" + Clean(b)
  {
    StripByLine(a, b);
    ReplaceByLine(StripAnnotations(a), StripAnnotations(b));
  }

  /** An answer of the usual shape: text, one annotation (whose body may
      hold `>`, but not `>>`, a newline or a final `>`), more text, the
      marker and the final answer. The annotation goes and the marker
      becomes the phrase; everything else is kept in order. */
  lemma CleanAnnotatedAnswer(p: string, x: string, m: string, q: string)
    requires '<' !in p && '#' !in p && '<' !in m && '#' !in m && '<' !in q && '#' !in q
    requires '\n' !in x && NoCloseIn(x)
    ensures Clean(p + "<<" + x + ">>" + m + Marker + q) == p + m + Phrase + q
  {
    var rest := m + Marker + q;
    assert p + "<<" + x + ">>" + m + Marker + q == p + "<<" + x + ">>" + rest;
    StripAnnotatedAnswer(p, x, rest);
    assert p + rest == (p + m) + Marker + q;
    MarkerFreePrefix(p + m, "###");
    ReplaceSpan(p + m, q);
    MarkerFreePrefix(q, []);
    assert q + [] == q;
    ReplaceIdentity(q);
  }

  /** The `re.sub` pass on that shape deletes the annotation and keeps the
      text around it. */
  lemma StripAnnotatedAnswer(p: string, x: string, rest: string)
    requires '<' !in p && '<' !in rest
    requires '\n' !in x && NoCloseIn(x)
    ensures StripAnnotations(p + "<<" + x + ">>" + rest) == p + rest
  {
    assert p + "<<" + x + ">>" + rest == p + ("<<" + x + ">>" + rest);
    StripPlainPrefix(p, "<<" + x + ">>" + rest);
    StripDeletesSpan(x, rest);
    StripPlainPrefix(rest, []);
    assert rest + [] == rest;
  }

  /** Deleting an annotation can join two halves of a marker, and the
      replacement still removes it: "##<<x>>##" becomes "The answer is".
      The literals are parameters pinned by `requires` so that the verifier
      works on their pieces instead of unfolding `Clean` on one long literal. */
  lemma CleanJoinedMarker(s: string, h: string, x: string)
    requires s == "##<<x>>##" && h == "##" && x == "x"
    ensures Clean(s) == Phrase
  {
    assert s == h + "<<" + x + ">>" + h;
    StripAnnotatedAnswer(h, x, h);
    ReplaceHeadMarker(Marker, []);
    assert h + h == Marker + [];
    assert Marker[4..] + [] == [];
    assert Phrase + [] == Phrase;
  }

  /** A `<<` whose `>>` comes only after a newline is not an annotation:
      the rest of its line, `x`, has no newline and no `>>` (it may hold `>`,
      `<` or another `<<`). Unless that line holds `####` it is kept, and the
      text after the newline is cleaned on its own. */
  lemma CleanKeepsOpenerBeforeNewline(x: string, y: string)
    requires '\n' !in x && FindClose(x).None? && !ContainsMarker("<<" + x)
    ensures Clean("<<" + x + "\n" + y) == "<<" + x + "\n" + Clean(y)
  {
    var head := "<<" + x;
    assert "<<" + x + "\n" + y == head + "\n" + y;
    StripByLine(head, y);
    FindCloseSkip("<<", x);
    NoLineCloseNoAnnotation(head);
    StripIdentity(head);
    ReplaceByLine(head, StripAnnotations(y));
    ReplaceIdentity(head);
  }

  // ---------------------------------------------------------------------
  // Facts about FindClose
  // ---------------------------------------------------------------------

  /** A match that ends inside `x` ends at the same place when more text follows. */
  lemma {:induction false} FindCloseAppend(x: string, y: string)
    requires FindClose(x).Some?
    ensures FindClose(x + y) == FindClose(x)
    decreases |x|
  {
    if !(x[0] == '>' && x[1] == '>') {
      assert (x + y)[1..] == x[1..] + y;
      FindCloseAppend(x[1..], y);
    }
  }

  /** A newline stops the search: when `x` holds no end, `x + "\n" + y` holds none. */
  lemma {:induction false} FindCloseNewline(x: string, y: string)
    requires FindClose(x).None?
    ensures FindClose(x + "\n" + y).None?
    decreases |x|
  {
    if |x| > 0 && x[0] != '\n' {
      assert (x + "\n" + y)[1..] == x[1..] + "\n" + y;
      if |x| >= 2 {
        FindCloseNewline(x[1..], y);
      } else {
        assert x[1..] + "\n" + y == "\n" + y;
      }
    }
  }

  /** Text without `>` or newline is skipped over by the search. */
  lemma {:induction false} FindCloseSkip(p: string, y: string)
    requires '>' !in p && '\n' !in p
    ensures FindClose(y).None? ==> FindClose(p + y).None?
    ensures FindClose(p + y).None? ==> FindClose(y).None?
    ensures FindClose(y).Some? ==> FindClose(p + y) == Some(|p| + FindClose(y).value)
    decreases |p|
  {
    if p != [] {
      assert (p + y)[1..] == p[1..] + y;
      FindCloseSkip(p[1..], y);
      if |p + y| < 2 {
        assert p[1..] + y == [];
      }
    } else {
      assert p + y == y;
    }
  }

  // ---------------------------------------------------------------------
  // Facts about StripAnnotations
  // ---------------------------------------------------------------------

  /** Where no end can be found, the first character is kept. */
  lemma StripHeadKept(v: string)
    requires |v| > 0 && FindClose(v).None?
    ensures StripAnnotations(v) == [v[0]] + StripAnnotations(v[1..])
  {
    if |v| >= 2 && v[0] == '<' && v[1] == '<' {
      assert v[1..][1..] == v[2..];
      if |v| >= 3 {
        assert FindClose(v[1..]).None?;
      }
    }
  }

  /** Deleting annotations cannot bring a `>>` before the first newline. */
  lemma {:induction false} StripKeepsUnclosed(w: string)
    requires FindClose(w).None?
    ensures FindClose(StripAnnotations(w)).None?
    decreases |w|
  {
    if w != [] {
      StripHeadKept(w);
      var x := StripAnnotations(w[1..]);
      assert StripAnnotations(w) == [w[0]] + x;
      if w[0] != '\n' && |w| >= 2 {
        StripKeepsUnclosed(w[1..]);
        assert ([w[0]] + x)[1..] == x;
        if x != [] {
          StripHeadKept(w[1..]);
        }
      }
    }
  }

  /** On a line with no `>>` at all, no match can start. */
  lemma {:induction false} NoLineCloseNoAnnotation(s: string)
    requires '\n' !in s && FindClose(s).None?
    ensures !HasAnnotation(s)
    decreases |s|
  {
    if |s| >= 2 {
      assert !(s[0] == '>' && s[1] == '>');
      assert FindClose(s[1..]).None?;
      if s[0] == '<' && s[1] == '<' && |s| >= 3 {
        assert s[1..][1..] == s[2..];
        assert FindClose(s[2..]).None?;
      }
      assert '\n' !in s[1..];
      NoLineCloseNoAnnotation(s[1..]);
    }
  }

  /** No match of the pattern survives the substitution. */
  lemma {:induction false} StripNoAnnotation(s: string)
    ensures !HasAnnotation(StripAnnotations(s))
    decreases |s|
  {
    if s == [] {
    } else if |s| >= 2 && s[0] == '<' && s[1] == '<' && FindClose(s[2..]).Some? {
      StripNoAnnotation(s[FindClose(s[2..]).value + 4..]);
    } else {
      var z := StripAnnotations(s[1..]);
      StripNoAnnotation(s[1..]);
      assert StripAnnotations(s) == [s[0]] + z;
      assert ([s[0]] + z)[1..] == z;
      if |s| >= 2 && s[0] == '<' && s[1] == '<' {
        // s[1..] starts with the `<` that failed to open, which is kept
        var v := s[1..];
        assert v[1..] == s[2..];
        assert FindClose(v).None?;
        StripHeadKept(v);
        StripKeepsUnclosed(s[2..]);
        assert z[1..] == StripAnnotations(s[2..]);
      } else if |s| >= 2 && s[0] == '<' {
        assert s[1..][0] == s[1] && s[1] != '<';
        assert z[0] == s[1];
      }
    }
  }

  /** Without a match, the substitution changes nothing. */
  lemma {:induction false} StripIdentity(s: string)
    requires !HasAnnotation(s)
    ensures StripAnnotations(s) == s
    decreases |s|
  {
    if s != [] {
      if |s| >= 2 {
        StripIdentity(s[1..]);
      }
      assert s == [s[0]] + s[1..];
    }
  }

  /** A match never spans a newline, so the substitution works line by line. */
  lemma {:induction false} StripByLine(a: string, b: string)
    ensures StripAnnotations(a + "\n" + b) == StripAnnotations(a) + "\n" + StripAnnotations(b)
    decreases |a|
  {
    var s := a + "\n" + b;
    if a == [] {
      assert s == "\n" + b;
      assert s[1..] == b;
    } else if |a| >= 2 && a[0] == '<' && a[1] == '<' {
      assert s[2..] == a[2..] + "\n" + b;
      match FindClose(a[2..])
      case Some(k) =>
        FindCloseAppend(a[2..], "\n" + b);
        assert a[2..] + "\n" + b == a[2..] + ("\n" + b);
        assert s[k + 4..] == a[k + 4..] + "\n" + b;
        StripByLine(a[k + 4..], b);
      case None =>
        FindCloseNewline(a[2..], b);
        assert s[1..] == a[1..] + "\n" + b;
        StripByLine(a[1..], b);
    } else {
      assert s[1..] == a[1..] + "\n" + b;
      StripByLine(a[1..], b);
    }
  }

  /** No `<` in `p` can open a match. */
  ghost predicate NoOpener(p: string) {
    forall i :: 0 <= i < |p| && p[i] == '<' ==> i + 1 < |p| && p[i + 1] != '<'
  }

  /** Text in which no match can start is kept as it is. */
  lemma {:induction false} StripPlainPrefix(p: string, r: string)
    requires NoOpener(p)
    ensures StripAnnotations(p + r) == p + StripAnnotations(r)
    decreases |p|
  {
    if p != [] {
      assert (p + r)[1..] == p[1..] + r;
      assert NoOpener(p[1..]) by {
        forall i | 0 <= i < |p[1..]| && p[1..][i] == '<'
          ensures i + 1 < |p[1..]| && p[1..][i + 1] != '<'
        {
          assert p[i + 1] == '<';
        }
      }
      StripPlainPrefix(p[1..], r);
      assert p == [p[0]] + p[1..];
    } else {
      assert p + r == r;
    }
  }

  /** `x` holds no `>>` and does not end in `>`, so a `>>` placed right
      after it is the first one. */
  ghost predicate NoCloseIn(x: string) {
    forall k :: 0 <= k < |x| && x[k] == '>' ==> k + 1 < |x| && x[k + 1] != '>'
  }

  /** After text with no newline, no `>>` of its own and no final `>`, the
      lazy search ends at the `>>` that follows it. (After a final `>` it
      would end one place earlier.) */
  lemma FindCloseAtEnd(x: string, q: string)
    requires '\n' !in x && NoCloseIn(x)
    ensures FindClose(x + ">>" + q) == Some(|x|)
  {
    var t := x + ">>" + q;
    assert t[..|x|] == x;
    assert ClosesAt(t, |x|);
    forall k: nat | k < |x|
      ensures !ClosesAt(t, k)
    {
      assert t[k] == x[k];
      if k + 1 < |x| {
        assert t[k + 1] == x[k + 1];
      }
    }
  }

  /** An annotation whose body has no newline, no `>>` of its own and no
      final `>` (an inner `>`, as in `<<5>3>>`, is allowed) is deleted with
      its brackets, and the scan resumes right after it. */
  lemma StripDeletesSpan(x: string, q: string)
    requires '\n' !in x && NoCloseIn(x)
    ensures StripAnnotations("<<" + x + ">>" + q) == StripAnnotations(q)
  {
    var s := "<<" + x + ">>" + q;
    assert s[2..] == x + ">>" + q;
    FindCloseAtEnd(x, q);
    assert s[|x| + 4..] == q;
  }

  /** `a` is `b` with some characters deleted and the rest kept in order. */
  predicate IsSubseq(a: string, b: string)
    decreases |b|
  {
    if a == [] then true
    else if b == [] then false
    else (a[0] == b[0] && IsSubseq(a[1..], b[1..])) || IsSubseq(a, b[1..])
  }

  /** A subsequence of a suffix of `b` is a subsequence of `b`. */
  lemma {:induction false} SubseqOfSuffix(a: string, b: string, k: nat)
    requires k <= |b| && IsSubseq(a, b[k..])
    ensures IsSubseq(a, b)
    decreases k
  {
    if k == 0 {
      assert b[0..] == b;
    } else {
      assert b[1..][k - 1..] == b[k..];
      SubseqOfSuffix(a, b[1..], k - 1);
    }
  }

  /** The substitution only deletes: every character it keeps stays in
      order, so the result is a subsequence of the input. */
  lemma {:induction false} StripIsSubseq(s: string)
    ensures IsSubseq(StripAnnotations(s), s)
    decreases |s|
  {
    if s == [] {
    } else if |s| >= 2 && s[0] == '<' && s[1] == '<' && FindClose(s[2..]).Some? {
      var k := FindClose(s[2..]).value;
      StripIsSubseq(s[k + 4..]);
      SubseqOfSuffix(StripAnnotations(s[k + 4..]), s, k + 4);
    } else {
      var rest := StripAnnotations(s[1..]);
      StripIsSubseq(s[1..]);
      assert StripAnnotations(s) == [s[0]] + rest;
      assert ([s[0]] + rest)[1..] == rest;
    }
  }

  // ---------------------------------------------------------------------
  // Facts about ReplaceMarker
  // ---------------------------------------------------------------------

  /** A run of `#` at the start of the result comes from one in the input. */
  lemma {:induction false} HashRunKept(t: string, k: nat)
    ensures k <= |ReplaceMarker(t)| && (forall i :: 0 <= i < k ==> ReplaceMarker(t)[i] == '#')
            ==> k <= |t| && forall i :: 0 <= i < k ==> t[i] == '#'
    decreases k
  {
    if k > 0 && t != [] {
      if StartsWithMarker(t) {
        assert ReplaceMarker(t)[0] == Phrase[0];
      } else {
        var u := ReplaceMarker(t[1..]);
        assert ReplaceMarker(t) == [t[0]] + u;
        HashRunKept(t[1..], k - 1);
        if k <= |ReplaceMarker(t)| && (forall i :: 0 <= i < k ==> ReplaceMarker(t)[i] == '#') {
          assert forall i :: 0 <= i < k - 1 ==> u[i] == ReplaceMarker(t)[i + 1];
          assert ReplaceMarker(t)[0] == t[0] == '#';
          assert forall i :: 0 < i < k ==> t[i] == t[1..][i - 1];
        }
      }
    }
  }

  /** Text without `#` adds no marker in front of another text. */
  lemma {:induction false} MarkerFreePrefix(p: string, x: string)
    requires '#' !in p
    ensures ContainsMarker(p + x) == ContainsMarker(x)
    decreases |p|
  {
    if p != [] {
      assert (p + x)[1..] == p[1..] + x;
      assert !StartsWithMarker(p + x) by {
        if |p + x| >= 4 {
          assert (p + x)[..4][0] == p[0] != '#' == Marker[0];
        }
      }
      MarkerFreePrefix(p[1..], x);
    } else {
      assert p + x == x;
    }
  }

  /** No `####` survives the replacement: the phrase holds no `#`, and a
      kept `#` is never followed by three more. */
  lemma {:induction false} ReplaceNoMarker(t: string)
    ensures !ContainsMarker(ReplaceMarker(t))
    decreases |t|
  {
    if t == [] {
    } else if StartsWithMarker(t) {
      ReplaceNoMarker(t[4..]);
      MarkerFreePrefix(Phrase, ReplaceMarker(t[4..]));
    } else {
      var u := ReplaceMarker(t[1..]);
      var w := [t[0]] + u;
      assert ReplaceMarker(t) == w;
      ReplaceNoMarker(t[1..]);
      HashRunKept(t[1..], 3);
      assert w[1..] == u;
      if |t| >= 4 {
        assert t[..4] == [t[0]] + t[1..][..3];
      }
    }
  }

  /** Without a marker, the replacement changes nothing. */
  lemma {:induction false} ReplaceIdentity(s: string)
    requires !ContainsMarker(s)
    ensures ReplaceMarker(s) == s
    decreases |s|
  {
    if s != [] {
      if |s| >= 4 {
        ReplaceIdentity(s[1..]);
      } else {
        assert !ContainsMarker(s[1..]);
        ReplaceIdentity(s[1..]);
      }
      assert s == [s[0]] + s[1..];
    }
  }

  /** The leftmost marker becomes the phrase: when no marker starts inside
      `p` (even one that would run into the marker after it, as `#` + `###`
      would), `p` is kept and the marker after it is replaced. `#` may occur
      in `p`, as in "Step #1: 2+2=4 #### 4". */
  lemma {:induction false} ReplaceSpan(p: string, q: string)
    requires !ContainsMarker(p + "###")
    ensures ReplaceMarker(p + Marker + q) == p + Phrase + ReplaceMarker(q)
    decreases |p|
  {
    var s := p + Marker + q;
    if p == [] {
      assert s == Marker + q;
      assert s[..4] == Marker && s[4..] == q;
    } else {
      assert !StartsWithMarker(s) by {
        assert !StartsWithMarker(p + "###");
        assert s[..4] == (p + "###")[..4];
      }
      assert (p + "###")[1..] == p[1..] + "###";
      assert s[1..] == p[1..] + Marker + q;
      ReplaceSpan(p[1..], q);
      assert p == [p[0]] + p[1..];
    }
  }

  /** A marker at the start of `a` is replaced whatever follows `a`. */
  lemma ReplaceHeadMarker(a: string, t: string)
    requires StartsWithMarker(a)
    ensures ReplaceMarker(a + t) == Phrase + ReplaceMarker(a[4..] + t)
  {
    assert (a + t)[..4] == a[..4];
    assert (a + t)[4..] == a[4..] + t;
  }

  /** Without a marker at the start of `a`, a newline after `a` cannot
      complete one, so the first character is kept. */
  lemma ReplaceHeadKept(a: string, b: string)
    requires a != [] && !StartsWithMarker(a)
    ensures ReplaceMarker(a + "\n" + b) == [a[0]] + ReplaceMarker(a[1..] + "\n" + b)
  {
    var s := a + "\n" + b;
    assert !StartsWithMarker(s) by {
      if |a| < 4 && |s| >= 4 {
        assert s[..4][|a|] == '\n';
      } else if |s| >= 4 {
        assert s[..4] == a[..4];
      }
    }
    assert s[1..] == a[1..] + "\n" + b;
  }

  /** A marker never spans a newline, so the replacement works line by line. */
  lemma {:induction false} ReplaceByLine(a: string, b: string)
    ensures ReplaceMarker(a + "\n" + b) == ReplaceMarker(a) + "\n" + ReplaceMarker(b)
    decreases |a|
  {
    if a == [] {
      assert a + "\n" + b == "\n" + b;
      assert ("\n" + b)[1..] == b;
    } else if StartsWithMarker(a) {
      assert a + "\n" + b == a + ("\n" + b);
      assert a[4..] + ("\n" + b) == a[4..] + "\n" + b;
      ReplaceHeadMarker(a, "\n" + b);
      ReplaceByLine(a[4..], b);
      var x, y := ReplaceMarker(a[4..]), ReplaceMarker(b);
      assert Phrase + (x + "\n" + y) == (Phrase + x) + "\n" + y;
    } else {
      ReplaceHeadKept(a, b);
      ReplaceByLine(a[1..], b);
      var x, y := ReplaceMarker(a[1..]), ReplaceMarker(b);
      assert [a[0]] + (x + "\n" + y) == ([a[0]] + x) + "\n" + y;
    }
  }

  /** Text without `<` adds no annotation in front of another text. */
  lemma {:induction false} AnnotationFreePrefix(p: string, x: string)
    requires '<' !in p
    ensures HasAnnotation(p + x) == HasAnnotation(x)
    decreases |p|
  {
    if p != [] {
      assert (p + x)[1..] == p[1..] + x;
      AnnotationFreePrefix(p[1..], x);
    } else {
      assert p + x == x;
    }
  }

  /** Dropping a prefix creates no annotation. */
  lemma {:induction false} AnnotationFreeSuffix(t: string, k: nat)
    requires k <= |t| && !HasAnnotation(t)
    ensures !HasAnnotation(t[k..])
    decreases k
  {
    if k > 0 {
      assert t[1..][k - 1..] == t[k..];
      AnnotationFreeSuffix(t[1..], k - 1);
    }
  }

  /** The replacement cannot bring a `>>` before the first newline. */
  lemma {:induction false} ReplaceKeepsUnclosed(u: string)
    requires FindClose(u).None?
    ensures FindClose(ReplaceMarker(u)).None?
    decreases |u|
  {
    if u == [] {
    } else if StartsWithMarker(u) {
      assert u == Marker + u[4..];
      FindCloseSkip(Marker, u[4..]);
      ReplaceKeepsUnclosed(u[4..]);
      FindCloseSkip(Phrase, ReplaceMarker(u[4..]));
    } else {
      var x := ReplaceMarker(u[1..]);
      assert ReplaceMarker(u) == [u[0]] + x;
      assert ([u[0]] + x)[1..] == x;
      if u[0] != '\n' && |u| >= 2 {
        ReplaceKeepsUnclosed(u[1..]);
      }
    }
  }

  /** The replacement creates no annotation. */
  lemma {:induction false} ReplaceNoNewAnnotation(t: string)
    requires !HasAnnotation(t)
    ensures !HasAnnotation(ReplaceMarker(t))
    decreases |t|
  {
    if t == [] {
    } else if StartsWithMarker(t) {
      AnnotationFreeSuffix(t, 4);
      ReplaceNoNewAnnotation(t[4..]);
      AnnotationFreePrefix(Phrase, ReplaceMarker(t[4..]));
    } else {
      var x := ReplaceMarker(t[1..]);
      assert ReplaceMarker(t) == [t[0]] + x;
      assert ([t[0]] + x)[1..] == x;
      if |t| >= 2 {
        ReplaceNoNewAnnotation(t[1..]);
        if t[0] == '<' && t[1] == '<' {
          assert t[1..][1..] == t[2..];
          ReplaceKeepsUnclosed(t[2..]);
        }
      }
    }
  }
}

/** JSON pointers: printing joins escaped segments, parsing splits and unescapes, both by
    global replacements one after the other (RFC 6901, sections 3 and 4). */
module Pointers {
  import opened ByteCodec

  /** strings.ReplaceAll: from left to right, without overlaps. */
  function ReplaceAll(s: string, old_: string, new_: string): string
    requires old_ != ""
  {
    if |s| < |old_| then s
    else if s[..|old_|] == old_ then new_ + ReplaceAll(s[|old_|..], old_, new_)
    else [s[0]] + ReplaceAll(s[1..], old_, new_)
  }

  /** strings.Split on one character. */
  function Split(s: string, c: char): (r: seq<string>)
    ensures |r| >= 1
  {
    if s == "" then [""]
    else
      var rest := Split(s[1..], c);
      if s[0] == c then [""] + rest else [[s[0]] + rest[0]] + rest[1..]
  }

  function Escape(seg: string): string { ReplaceAll(ReplaceAll(seg, "~", "~0"), "/", "~1") }

  function Unescape(seg: string): string { ReplaceAll(ReplaceAll(seg, "~1", "/"), "~0", "~") }

  function Pointer(segs: seq<string>): string {
    if segs == [] then "" else Pointer(segs[..|segs| - 1]) + "/" + Escape(segs[|segs| - 1])
  }

  function UnescapeAll(segs: seq<string>): (r: seq<string>)
    ensures |r| == |segs|
  {
    seq(|segs|, i requires 0 <= i < |segs| => Unescape(segs[i]))
  }

  /** None for text that is no pointer. */
  function Parse(ptr: string): Option<seq<string>> {
    if ptr == "" then Some([])
    else if ptr[0] != '/' then None
    else Some(UnescapeAll(Split(ptr, '/'))[1..])
  }

  method NewPointer(segs: seq<string>) returns (buffer: string)
    ensures buffer == Pointer(segs)
  {
    buffer := "";
    for i := 0 to |segs|
      invariant buffer == Pointer(segs[..i])
    {
      assert segs[..i + 1][..i] == segs[..i];
      buffer := buffer + "/";
      buffer := buffer + Escape(segs[i]);
    }
    assert segs[..|segs|] == segs;
  }

  method PreparePointer(ptr: string) returns (r: Option<seq<string>>)
    ensures r == Parse(ptr)
  {
    if |ptr| == 0 {
      return Some([]);
    }
    if ptr[0] != '/' {
      return None;
    }
    var split := Split(ptr, '/');
    var p := split;
    for i := 0 to |p|
      invariant |p| == |split|
      invariant forall k | 0 <= k < |p| :: p[k] == if k < i then Unescape(split[k]) else split[k]
    {
      p := p[i := Unescape(p[i])];
    }
    assert p == UnescapeAll(split);
    return Some(p[1..]);
  }

  // ---- Escaping, one character at a time ----

  /** What a character of a segment is printed as. */
  function Escaped(c: char): string { if c == '~' then "~0" else if c == '/' then "~1" else [c] }

  lemma ReplaceOne(s: string, c: char, w: string)
    ensures s == "" ==> ReplaceAll(s, [c], w) == ""
    ensures s != "" ==> ReplaceAll(s, [c], w) == (if s[0] == c then w else [s[0]]) + ReplaceAll(s[1..], [c], w)
  {
    if s != "" {
      assert s[..1] == [s[0]];
    }
  }

  lemma {:induction false} ReplaceConcat(s: string, t: string, c: char, w: string)
    ensures ReplaceAll(s + t, [c], w) == ReplaceAll(s, [c], w) + ReplaceAll(t, [c], w)
  {
    hide ReplaceAll;
    ReplaceOne(s, c, w);
    ReplaceOne(s + t, c, w);
    if s == "" {
      assert s + t == t;
    } else {
      assert (s + t)[1..] == s[1..] + t;
      ReplaceConcat(s[1..], t, c, w);
    }
  }

  lemma EscapeStep(s: string)
    ensures s == "" ==> Escape(s) == ""
    ensures s != "" ==> Escape(s) == Escaped(s[0]) + Escape(s[1..])
  {
    hide ReplaceAll;
    ReplaceOne(s, '~', "~0");
    if s == "" {
      ReplaceOne("", '/', "~1");
    } else {
      var head := if s[0] == '~' then "~0" else [s[0]];
      ReplaceConcat(head, ReplaceAll(s[1..], "~", "~0"), '/', "~1");
      ReplaceOne(head, '/', "~1");
      ReplaceOne(head[1..], '/', "~1");
      if s[0] == '~' {
        ReplaceOne(head[1..][1..], '/', "~1");
      }
    }
  }

  /** One character, or an escape sequence, unescapes on its own. */
  lemma UnescapeStep(c: char, t: string)
    ensures Unescape(Escaped(c) + t) == [c] + Unescape(t)
  {
    hide ReplaceAll;
    var inner := ReplaceAll(t, "~1", "/");
    if c == '~' {
      SkipTilde(t);
      TakeTwo("~0", inner, "~");
      assert "~0" + inner == ['~', '0'] + inner;
    } else if c == '/' {
      TakeTwo("~1", t, "/");
      SkipOne('/', inner, "~0", "~");
    } else {
      SkipOne(c, t, "~1", "/");
      SkipOne(c, inner, "~0", "~");
    }
  }

  lemma TakeTwo(two: string, t: string, w: string)
    requires |two| == 2
    ensures ReplaceAll(two + t, two, w) == w + ReplaceAll(t, two, w)
  {
    assert (two + t)[..2] == two && (two + t)[2..] == t;
  }

  lemma SkipOne(c: char, t: string, two: string, w: string)
    requires |two| == 2 && c != two[0]
    ensures ReplaceAll([c] + t, two, w) == [c] + ReplaceAll(t, two, w)
  {
    var s := [c] + t;
    if |s| >= 2 {
      assert s[..2][0] == c;
      assert s[1..] == t;
    }
  }

  lemma SkipTilde(t: string)
    ensures ReplaceAll("~0" + t, "~1", "/") == "~0" + ReplaceAll(t, "~1", "/")
  {
    var s := "~0" + t;
    assert s[..2][1] == '0';
    assert s[1..] == ['0'] + t;
    SkipOne('0', t, "~1", "/");
    assert ['~'] + (['0'] + ReplaceAll(t, "~1", "/")) == "~0" + ReplaceAll(t, "~1", "/");
  }

  /** Unescaping undoes escaping, for every segment. */
  lemma {:induction false} UnescapeEscape(s: string)
    ensures Unescape(Escape(s)) == s
  {
    hide Unescape, Escape, Escaped;
    EscapeStep(s);
    if s == "" {
      UnescapeNothing();
    } else {
      UnescapeEscape(s[1..]);
      UnescapeStep(s[0], Escape(s[1..]));
      assert s == [s[0]] + s[1..];
    }
  }

  lemma UnescapeNothing()
    ensures Unescape("") == ""
  {
  }

  // ---- Splitting ----

  lemma {:induction false} EscapeHasNoSlash(s: string)
    ensures '/' !in Escape(s)
  {
    hide Escape;
    EscapeStep(s);
    if s != "" {
      EscapeHasNoSlash(s[1..]);
    }
  }

  lemma {:induction false} SplitWhole(s: string, c: char)
    requires c !in s
    ensures Split(s, c) == [s]
  {
    if s != "" {
      SplitWhole(s[1..], c);
      assert [s[0]] + s[1..] == s;
    }
  }

  lemma {:induction false} SplitAppend(s: string, t: string, c: char)
    requires c !in t
    ensures Split(s + [c] + t, c) == Split(s, c) + [t]
  {
    var u := s + [c] + t;
    if s == "" {
      assert u[1..] == t;
      SplitWhole(t, c);
    } else {
      assert u[1..] == s[1..] + [c] + t;
      SplitAppend(s[1..], t, c);
    }
  }

  function EscapeAll(segs: seq<string>): (r: seq<string>)
    ensures |r| == |segs|
  {
    seq(|segs|, i requires 0 <= i < |segs| => Escape(segs[i]))
  }

  /** A printed pointer splits into its escaped segments, behind an empty first one. */
  lemma {:induction false} SplitPointer(segs: seq<string>)
    ensures Split(Pointer(segs), '/') == [""] + EscapeAll(segs)
    ensures segs != [] ==> Pointer(segs) != "" && Pointer(segs)[0] == '/'
  {
    hide Escape;
    if segs == [] {
      assert EscapeAll(segs) == [];
    } else {
      var init, last := segs[..|segs| - 1], segs[|segs| - 1];
      SplitPointer(init);
      EscapeHasNoSlash(last);
      SplitAppend(Pointer(init), Escape(last), '/');
      assert EscapeAll(segs) == EscapeAll(init) + [Escape(last)];
      if init == [] {
        assert Pointer(init) == "";
      }
    }
  }

  /** Parsing what was printed gives the segments back: any strings, in any number. */
  lemma PointerRoundTrip(segs: seq<string>)
    ensures Parse(Pointer(segs)) == Some(segs)
  {
    hide Unescape, Escape;
    SplitPointer(segs);
    if segs != [] {
      var split := [""] + EscapeAll(segs);
      forall i | 0 <= i < |segs| ensures UnescapeAll(split)[1..][i] == segs[i] {
        UnescapeEscape(segs[i]);
      }
      assert UnescapeAll(split)[1..] == segs;
    }
  }

  // ---- The other way round ----

  /** Every tilde starts one of the two escape sequences. */
  predicate WellEscaped(t: string) {
    if t == "" then true
    else if t[0] == '~' then |t| >= 2 && (t[1] == '0' || t[1] == '1') && WellEscaped(t[2..])
    else WellEscaped(t[1..])
  }

  lemma {:induction false} EscapeIsWellEscaped(s: string)
    ensures WellEscaped(Escape(s))
  {
    hide Escape;
    EscapeStep(s);
    if s != "" {
      EscapeIsWellEscaped(s[1..]);
      var e := Escape(s[1..]);
      assert (Escaped(s[0]) + e)[|Escaped(s[0])|..] == e;
    }
  }

  /** A segment of pointer text survives parsing and printing exactly when its tildes
      are well-formed escapes. */
  lemma EscapeUnescape(t: string)
    requires '/' !in t
    ensures Escape(Unescape(t)) == t <==> WellEscaped(t)
  {
    EscapeIsWellEscaped(Unescape(t));
    if WellEscaped(t) {
      WellEscapedSurvives(t);
    }
  }

  lemma {:induction false} WellEscapedSurvives(t: string)
    requires '/' !in t && WellEscaped(t)
    ensures Escape(Unescape(t)) == t
  {
    hide Escape, Unescape;
    if t == "" {
      UnescapeNothing();
      EscapeStep("");
    } else {
      var c := if t[0] != '~' then t[0] else if t[1] == '0' then '~' else '/';
      var rest := t[|Escaped(c)|..];
      assert t == Escaped(c) + rest;
      WellEscapedSurvives(rest);
      UnescapeStep(c, rest);
      EscapeStep([c] + Unescape(rest));
      assert ([c] + Unescape(rest))[1..] == Unescape(rest);
    }
  }
}

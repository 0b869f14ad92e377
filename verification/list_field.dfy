/**
 * The reader for the five nested-list columns (`genres`,
 * `production_companies`, ...). The CSV holds them in a Python-literal
 * style, with single quotes and `None`; the reader rewrites that text
 * towards JSON, tries `JSON.parse`, falls back to `eval`, and gives up
 * with an empty list.
 */
module ListField {
  import opened Wrappers
  import opened JsText

  /**
   * What `JSON.parse` or `eval` can hand back, as far as the reader cares:
   * an array, or a value that is not an array, split by JavaScript
   * truthiness because `|| []` treats the two kinds differently
   * (`null`, `false`, `0` and `""` are falsy; objects, `true`, other
   * numbers and other strings are truthy).
   */
  datatype JsValue<T> = Array(items: seq<T>) | Falsy | Truthy

  /**
   * The two foreign decoders, left uninterpreted: `json` is `JSON.parse`
   * and `eval` is the expression evaluator; `None` means the call threw.
   */
  datatype Decoders<T> = Decoders(json: string -> Option<JsValue<T>>, eval: string -> Option<JsValue<T>>)

  /** `s` holds the token `None` starting at position `i`. */
  predicate NoneAt(s: string, i: nat) {
    i + 4 <= |s| && s[i..i + 4] == "None"
  }

  predicate ContainsNone(s: string) {
    exists i: nat | i + 4 <= |s| :: NoneAt(s, i)
  }

  predicate StartsWith(s: string, w: string) {
    |w| <= |s| && s[..|w|] == w
  }

  /** The first rewrite step, `replace(/'/g, '"')`. */
  function QuotesToDouble(s: string): (r: string)
    ensures |r| == |s|
    ensures '\'' !in r
    ensures forall i :: 0 <= i < |s| && s[i] != '\'' ==> r[i] == s[i]
    ensures forall i :: 0 <= i < |s| && s[i] == '\'' ==> r[i] == '"'
  {
    seq(|s|, i requires 0 <= i < |s| => if s[i] == '\'' then '"' else s[i])
  }

  /**
   * The second rewrite step, `replace(/None/g, 'null')`: a left-to-right
   * scan replacing each occurrence. Both words have four letters, so the
   * length is kept, and `null` brings in no quote.
   */
  function ReplaceNone(s: string): (r: string)
    ensures |r| == |s|
    ensures forall i :: 0 <= i < |s| ==> r[i] == s[i] || r[i] in "nul"
    decreases |s|
  {
    if NoneAt(s, 0) then "null" + ReplaceNone(s[4..])
    else if s == [] then []
    else [s[0]] + ReplaceNone(s[1..])
  }

  /** The full text rewrite applied before `JSON.parse`. */
  function Rewrite(s: string): string {
    ReplaceNone(QuotesToDouble(s))
  }

  /**
   * If the rewritten text starts with "one", "ne" or "e", so did the
   * original: "null" starts with "nu", which none of these does.
   */
  lemma {:induction false} ReplaceNoneKeepsPrefix(t: string, w: string)
    requires w == "one" || w == "ne" || w == "e"
    ensures StartsWith(ReplaceNone(t), w) ==> StartsWith(t, w)
    decreases |w|
  {
    if t != [] && !NoneAt(t, 0) {
      var r := ReplaceNone(t);
      assert r == [t[0]] + ReplaceNone(t[1..]);
      if w != "e" {
        var w' := w[1..];
        ReplaceNoneKeepsPrefix(t[1..], w');
        if StartsWith(r, w) {
          assert ReplaceNone(t[1..])[..|w'|] == r[1..|w|];
          assert r[1..|w|] == w';
          assert t[..|w|] == [t[0]] + t[1..][..|w'|];
        }
      }
    }
  }

  /** "null" followed by text without `None` holds no `None`. */
  lemma NullPrefixAddsNone(rest: string)
    requires !ContainsNone(rest)
    ensures !ContainsNone("null" + rest)
  {
    var r := "null" + rest;
    forall i: nat | i + 4 <= |r| ensures !NoneAt(r, i) {
      if i < 4 {
        assert r[i] == "null"[i];
      } else {
        assert r[i..i + 4] == rest[i - 4..i];
        assert !NoneAt(rest, i - 4);
      }
    }
  }

  /** An 'N' followed by "one" is a `None`. */
  lemma NoneFromParts(s: string)
    requires s != []
    ensures StartsWith(s[1..], "one") && s[0] == 'N' ==> NoneAt(s, 0)
  {
    if StartsWith(s[1..], "one") && s[0] == 'N' {
      assert s[..4] == [s[0]] + s[1..][..3];
    }
  }

  /**
   * One kept character in front of a rewritten tail forms no `None`
   * unless the original already had one there.
   */
  lemma KeptCharAddsNone(s: string)
    requires s != [] && !NoneAt(s, 0)
    requires !ContainsNone(ReplaceNone(s[1..]))
    ensures !ContainsNone([s[0]] + ReplaceNone(s[1..]))
  {
    var rest := ReplaceNone(s[1..]);
    var r := [s[0]] + rest;
    ReplaceNoneKeepsPrefix(s[1..], "one");
    forall i: nat | i + 4 <= |r| ensures !NoneAt(r, i) {
      if i == 0 {
        assert r[..4] == [s[0]] + rest[..3];
        assert rest[..3] == r[..4][1..];
        assert "None"[1..] == "one";
        assert NoneAt(r, 0) ==> StartsWith(rest, "one");
        NoneFromParts(s);
      } else {
        assert r[i..i + 4] == rest[i - 1..i + 3];
        assert !NoneAt(rest, i - 1);
      }
    }
  }

  /** After the scan no `None` is left: the rewrite removes every occurrence. */
  lemma {:induction false} ReplaceNoneLeavesNone(s: string)
    ensures !ContainsNone(ReplaceNone(s))
    decreases |s|
  {
    if NoneAt(s, 0) {
      ReplaceNoneLeavesNone(s[4..]);
      NullPrefixAddsNone(ReplaceNone(s[4..]));
    } else if s != [] {
      ReplaceNoneLeavesNone(s[1..]);
      KeptCharAddsNone(s);
    }
  }

  /** Text with no `None` goes through the scan unchanged. */
  lemma {:induction false} ReplaceNoneIdentity(s: string)
    requires !ContainsNone(s)
    ensures ReplaceNone(s) == s
    decreases |s|
  {
    assert !NoneAt(s, 0);
    if s != [] {
      assert !ContainsNone(s[1..]) by {
        forall i: nat | i + 4 <= |s| - 1 ensures !NoneAt(s[1..], i) {
          assert s[1..][i..i + 4] == s[i + 1..i + 5];
          assert !NoneAt(s, i + 1);
        }
      }
      ReplaceNoneIdentity(s[1..]);
    }
  }

  /**
   * What the quote and `None` rewrite achieves: the length is kept, no single
   * quote and no `None` survive, and characters other than quotes and the
   * letters of a replaced `None` are untouched.
   */
  lemma RewriteNormalises(s: string)
    ensures |Rewrite(s)| == |s|
    ensures '\'' !in Rewrite(s)
    ensures !ContainsNone(Rewrite(s))
    ensures forall i :: 0 <= i < |s| && s[i] != '\'' && Rewrite(s)[i] != s[i] ==> Rewrite(s)[i] in "nul"
  {
    ReplaceNoneLeavesNone(QuotesToDouble(s));
    var q := QuotesToDouble(s);
    var r := Rewrite(s);
    forall i | 0 <= i < |r| ensures r[i] != '\'' {
      assert r[i] == q[i] || r[i] in "nul";
    }
  }

  /** The rewrite changes a string exactly when it holds a single quote or a `None`. */
  lemma RewriteFixedPoints(s: string)
    ensures Rewrite(s) == s <==> '\'' !in s && !ContainsNone(s)
  {
    RewriteNormalises(s);
    if '\'' !in s && !ContainsNone(s) {
      assert QuotesToDouble(s) == s;
      ReplaceNoneIdentity(s);
    }
  }

  /** Rewriting twice is rewriting once. */
  lemma RewriteIdempotent(s: string)
    ensures Rewrite(Rewrite(s)) == Rewrite(s)
  {
    RewriteNormalises(s);
    RewriteFixedPoints(Rewrite(s));
  }

  // ---------------------------------------------------------------------
  // The reader itself.

  /** The guard in front of the decoders: empty, blank or the text "null". */
  predicate IsNullish(raw: string) {
    raw == "" || Trim(raw) == "" || raw == "null"
  }

  /**
   * `parseJsonField` exactly as written. Its result is whatever the
   * successful decoder returned, which need not be an array: the JSON tier
   * returns its value unchecked, and the `eval` tier only maps falsy values
   * to `[]`.
   */
  function ParseJsonFieldAsWritten<T>(raw: string, d: Decoders<T>): (r: JsValue<T>)
    ensures IsNullish(raw) ==> r == Array([])
    ensures !IsNullish(raw) && d.json(Rewrite(raw)).Some? ==> r == d.json(Rewrite(raw)).value
    ensures !IsNullish(raw) && d.json(Rewrite(raw)).None? && d.eval("(" + raw + ")").None? ==> r == Array([])
    ensures !IsNullish(raw) && d.json(Rewrite(raw)).None? && d.eval("(" + raw + ")").Some? ==>
      r == (if d.eval("(" + raw + ")").value.Falsy? then Array([]) else d.eval("(" + raw + ")").value)
    ensures !r.Falsy? || d.json(Rewrite(raw)) == Some(Falsy)
  {
    if IsNullish(raw) then Array([])
    else match d.json(Rewrite(raw))
      case Some(v) => v
      case None =>
        match d.eval("(" + raw + ")")
        case Some(v) => if v.Falsy? then Array([]) else v
        case None => Array([])
  }

  /**
   * The defect: the cell `None` (Python's null, as the data writes it) gets
   * past the guard, is rewritten to `null`, and `JSON.parse("null")` is
   * JavaScript `null`, which the reader returns in place of a list.
   */
  lemma NoneCellYieldsNull<T>(d: Decoders<T>)
    requires d.json("null") == Some(Falsy)
    ensures !ParseJsonFieldAsWritten("None", d).Array?
  {
    assert Trim("None") == "None";
    assert NoneAt("None", 0);
    assert Rewrite("None") == "null";
  }

  /**
   * The list `xs` stands in for the value `v` the as-written reader
   * returns: the same array, or the empty list where `v` is not an array.
   */
  ghost predicate StoredAs<T>(xs: seq<T>, v: JsValue<T>) {
    v == Array(xs) || (xs == [] && !v.Array?)
  }

  /**
   * The reader as evidently intended: a list in every case. Whatever the
   * as-written reader would return that is not an array becomes `[]`.
   */
  function ParseJsonField<T>(raw: string, d: Decoders<T>): (r: seq<T>)
    ensures IsNullish(raw) ==> r == []
    ensures !IsNullish(raw) && d.json(Rewrite(raw)).Some? && d.json(Rewrite(raw)).value.Array? ==>
      r == d.json(Rewrite(raw)).value.items
    ensures !IsNullish(raw) && d.json(Rewrite(raw)).None? && d.eval("(" + raw + ")").None? ==> r == []
    ensures r != [] ==> ParseJsonFieldAsWritten(raw, d) == Array(r)
    ensures StoredAs(r, ParseJsonFieldAsWritten(raw, d))
  {
    match ParseJsonFieldAsWritten(raw, d)
    case Array(xs) => xs
    case _ => []
  }

  /** With the intended reader the cell `None` gives the empty list. */
  lemma NoneCellYieldsEmpty<T>(d: Decoders<T>)
    requires d.json("null") == Some(Falsy)
    ensures ParseJsonField("None", d) == []
  {
    assert Trim("None") == "None";
    assert NoneAt("None", 0);
    assert Rewrite("None") == "null";
  }
}

/** Quoted strings with backslash escapes, as SIP parameters and HTTP authentication values share them. */
module Quoting {
  import opened Text

  function Escape(v: string): string {
    if v == [] then []
    else (if v[0] == '\\' || v[0] == '"' then ['\\', v[0]] else [v[0]]) + Escape(v[1..])
  }

  function Quote(v: string): string {
    ['"'] + Escape(v) + ['"']
  }

  method QuoteValue(v: string) returns (q: string)
    ensures q == Quote(v)
  {
    q := ['"'];
    for i := 0 to |v|
      invariant q + Escape(v[i..]) == ['"'] + Escape(v)
    {
      assert v[i..][1..] == v[i + 1..];
      if v[i] == '\\' || v[i] == '"' {
        q := q + ['\\'];
      }
      q := q + [v[i]];
    }
    q := q + ['"'];
  }

  /** Removes escapes; a lone trailing backslash stays. */
  function Unescape(s: string): string {
    if s == [] then []
    else if s[0] != '\\' then [s[0]] + Unescape(s[1..])
    else if |s| == 1 then ['\\']
    else [s[1]] + Unescape(s[2..])
  }

  predicate IsQuoted(v: string) {
    |v| >= 2 && v[0] == '"' && v[|v| - 1] == '"'
  }

  function Unquoted(value: string): string {
    var v := TrimSpace(value);
    if IsQuoted(v) then Unescape(v[1..|v| - 1]) else v
  }

  method Unquote(value: string) returns (r: string)
    ensures r == Unquoted(value)
  {
    var v := TrimSpace(value);
    if !IsQuoted(v) {
      return v;
    }
    r := UnescapeLoop(v[1..|v| - 1]);
  }

  lemma UnescapePlain(s: string, i: nat)
    requires i < |s| && s[i] != '\\'
    ensures Unescape(s[i..]) == [s[i]] + Unescape(s[i + 1..])
  {
    assert s[i..][1..] == s[i + 1..];
  }

  lemma UnescapePair(s: string, i: nat)
    requires i + 1 < |s| && s[i] == '\\'
    ensures Unescape(s[i..]) == [s[i + 1]] + Unescape(s[i + 2..])
  {
    assert s[i..][2..] == s[i + 2..];
  }

  lemma UnescapeEnd(s: string)
    ensures Unescape(s[|s|..]) == []
    ensures s != [] && s[|s| - 1] == '\\' ==> Unescape(s[|s| - 1..]) == ['\\']
  {
  }

  method UnescapeLoop(s: string) returns (r: string)
    ensures r == Unescape(s)
  {
    hide Unescape;
    r := [];
    var escaped := false;
    assert s[0..] == s;
    assert r + Unescape(s) == Unescape(s);
    for i := 0 to |s|
      invariant escaped ==> i > 0 && s[i - 1] == '\\'
      invariant r + Unescape(s[if escaped then i - 1 else i..]) == Unescape(s)
    {
      if escaped {
        UnescapePair(s, i - 1);
        Regrouped(r, [s[i]], Unescape(s[i + 1..]));
        r := r + [s[i]];
        escaped := false;
      } else if s[i] == '\\' {
        escaped := true;
      } else {
        UnescapePlain(s, i);
        Regrouped(r, [s[i]], Unescape(s[i + 1..]));
        r := r + [s[i]];
      }
    }
    UnescapeEnd(s);
    if escaped {
      r := r + ['\\'];
    }
  }

  lemma {:induction false} UnescapeEscape(v: string)
    ensures Unescape(Escape(v)) == v
  {
    if v != [] {
      UnescapeEscape(v[1..]);
      var e := Escape(v);
      if v[0] == '\\' || v[0] == '"' {
        assert e[2..] == Escape(v[1..]);
      } else {
        assert e[1..] == Escape(v[1..]);
      }
    }
  }

  lemma UnquoteQuote(v: string)
    ensures Trimmed(Quote(v)) && IsQuoted(Quote(v)) && Unquoted(Quote(v)) == v
  {
    UnescapeEscape(v);
    assert Quote(v)[1..|Quote(v)| - 1] == Escape(v);
  }
}

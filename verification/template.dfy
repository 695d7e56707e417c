/** The subset of Python's `str.format(**values)` that the update-URL
    templates use: literal text and `{name}` replacement fields looked up by
    keyword. Brace escapes (`{{`, `}}`), format specs, conversions and
    attribute/index access are not modelled. */
module Template {
  import opened Text

  /** What `template.format(**values)` does: return the text, raise
      `KeyError(name)` for the first field whose name has no value, or raise
      some other exception (`ValueError` for an unmatched brace, `IndexError`
      for a positional field). */
  datatype FormatOutcome = Formatted(text: string) | UnknownKey(name: string) | BadFormat

  /** Text with no brace in it, so `format` copies it verbatim. */
  predicate Plain(s: string) {
    '{' !in s && '}' !in s
  }

  /** A field written `{}` or `{0}` is positional; keyword-only calls raise
      `IndexError` for it. */
  predicate IsPositional(name: string) {
    name == "" || IsDigits(name)
  }

  /** A field name that is looked up by keyword. */
  predicate IsFieldName(name: string) {
    Plain(name) && !IsPositional(name)
  }

  /** The text `{name}`. */
  function Field(name: string): string {
    "{" + name + "}"
  }

  function Prepend(prefix: string, o: FormatOutcome): FormatOutcome {
    match o
    case Formatted(t) => Formatted(prefix + t)
    case _ => o
  }

  /** `s.format(**values)`, scanning left to right so that the first problem
      met decides the exception. */
  function Format(s: string, values: map<string, string>): FormatOutcome
    decreases |s|
  {
    if |s| == 0 then Formatted("")
    else if s[0] == '}' then BadFormat
    else if s[0] == '{' then
      var k := IndexOf(s[1..], '}');
      if k == |s| - 1 then BadFormat
      else
        var name := s[1..k + 1];
        if !IsFieldName(name) then BadFormat
        else if name !in values then UnknownKey(name)
        else Prepend(values[name], Format(s[k + 2..], values))
    else Prepend([s[0]], Format(s[1..], values))
  }

  lemma PrependAssoc(a: string, b: string, o: FormatOutcome)
    ensures Prepend(a, Prepend(b, o)) == Prepend(a + b, o)
  {
    if o.Formatted? {
      assert a + (b + o.text) == (a + b) + o.text;
    }
  }

  /** Brace-free text in front of a template is copied through unchanged. */
  lemma {:induction false} FormatPlainPrefix(lit: string, rest: string, values: map<string, string>)
    requires Plain(lit)
    ensures Format(lit + rest, values) == Prepend(lit, Format(rest, values))
    decreases |lit|
  {
    if |lit| == 0 {
      assert lit + rest == rest;
      assert Prepend("", Format(rest, values)) == Format(rest, values) by {
        if Format(rest, values).Formatted? {
          assert "" + Format(rest, values).text == Format(rest, values).text;
        }
      }
    } else {
      var s := lit + rest;
      assert s[0] == lit[0] && s[1..] == lit[1..] + rest;
      FormatPlainPrefix(lit[1..], rest, values);
      PrependAssoc([lit[0]], lit[1..], Format(rest, values));
      assert [lit[0]] + lit[1..] == lit;
    }
  }

  /** A bound `{name}` field in front of a template is replaced by its value. */
  lemma FormatFieldPrefix(name: string, rest: string, values: map<string, string>)
    requires IsFieldName(name) && name in values
    ensures Format(Field(name) + rest, values) == Prepend(values[name], Format(rest, values))
  {
    var s := Field(name) + rest;
    assert s[0] == '{';
    assert s[1..] == name + "}" + rest;
    CloseAfterName(name, "}" + rest);
    assert s[1..][|name|] == '}';
    assert s[1..|name| + 1] == name;
    assert s[|name| + 2..] == rest;
  }

  /** An unbound `{name}` field in front of a template raises `KeyError(name)`. */
  lemma FormatUnboundPrefix(name: string, rest: string, values: map<string, string>)
    requires IsFieldName(name) && name !in values
    ensures Format(Field(name) + rest, values) == UnknownKey(name)
  {
    var s := Field(name) + rest;
    assert s[0] == '{';
    assert s[1..] == name + "}" + rest;
    CloseAfterName(name, "}" + rest);
    assert s[1..][|name|] == '}';
    assert s[1..|name| + 1] == name;
  }

  lemma {:induction false} CloseAfterName(name: string, rest: string)
    requires '}' !in name && |rest| > 0 && rest[0] == '}'
    ensures IndexOf(name + rest, '}') == |name|
    decreases |name|
  {
    if |name| > 0 {
      CloseAfterName(name[1..], rest);
      assert (name + rest)[1..] == name[1..] + rest;
    }
  }

  /** The abstract syntax of a template: literal characters and keyword
      replacement fields. */
  datatype Piece = Lit(c: char) | Hole(name: string)

  predicate WellFormedPiece(p: Piece) {
    match p
    case Lit(c) => c != '{' && c != '}'
    case Hole(n) => IsFieldName(n)
  }

  predicate WellFormed(ps: seq<Piece>) {
    forall i :: 0 <= i < |ps| ==> WellFormedPiece(ps[i])
  }

  /** The template text that spells the pieces. */
  function Source(ps: seq<Piece>): string
    decreases |ps|
  {
    if |ps| == 0 then ""
    else
      match ps[0]
      case Lit(c) => [c] + Source(ps[1..])
      case Hole(n) => Field(n) + Source(ps[1..])
  }

  /** Every field of the template has a value. */
  predicate AllBound(ps: seq<Piece>, values: map<string, string>) {
    forall i :: 0 <= i < |ps| && ps[i].Hole? ==> ps[i].name in values
  }

  /** The text the template stands for under `values`. */
  function Render(ps: seq<Piece>, values: map<string, string>): string
    requires AllBound(ps, values)
    decreases |ps|
  {
    if |ps| == 0 then ""
    else
      match ps[0]
      case Lit(c) => [c] + Render(ps[1..], values)
      case Hole(n) => values[n] + Render(ps[1..], values)
  }

  /** The name of the leftmost unbound field. */
  function FirstUnbound(ps: seq<Piece>, values: map<string, string>): string
    requires !AllBound(ps, values)
    decreases |ps|
  {
    if ps[0].Hole? && ps[0].name !in values then ps[0].name else FirstUnbound(ps[1..], values)
  }

  /** `format` evaluates the template its text spells: it renders it when every
      field is bound and otherwise raises `KeyError` for the leftmost unbound
      field; it never raises anything else on a well-formed template. */
  lemma {:induction false} FormatSource(ps: seq<Piece>, values: map<string, string>)
    requires WellFormed(ps)
    ensures AllBound(ps, values) ==> Format(Source(ps), values) == Formatted(Render(ps, values))
    ensures !AllBound(ps, values) ==> Format(Source(ps), values) == UnknownKey(FirstUnbound(ps, values))
    decreases |ps|
  {
    if |ps| > 0 {
      var tail := ps[1..];
      assert WellFormed(tail) by {
        forall i | 0 <= i < |tail| ensures WellFormedPiece(tail[i]) {
          assert tail[i] == ps[i + 1];
        }
      }
      FormatSource(tail, values);
      assert AllBound(ps, values) ==> AllBound(tail, values) by {
        if AllBound(ps, values) {
          forall i | 0 <= i < |tail| && tail[i].Hole? ensures tail[i].name in values {
            assert tail[i] == ps[i + 1];
          }
        }
      }
      match ps[0]
      case Lit(c) =>
        assert WellFormedPiece(ps[0]);
        FormatPlainPrefix([c], Source(tail), values);
        assert !AllBound(tail, values) ==> !AllBound(ps, values) by {
          if !AllBound(tail, values) {
            var i :| 0 <= i < |tail| && tail[i].Hole? && tail[i].name !in values;
            assert ps[i + 1] == tail[i];
          }
        }
      case Hole(n) =>
        assert WellFormedPiece(ps[0]);
        if n in values {
          FormatFieldPrefix(n, Source(tail), values);
          assert !AllBound(tail, values) ==> !AllBound(ps, values) by {
            if !AllBound(tail, values) {
              var i :| 0 <= i < |tail| && tail[i].Hole? && tail[i].name !in values;
              assert ps[i + 1] == tail[i];
            }
          }
        } else {
          FormatUnboundPrefix(n, Source(tail), values);
        }
    }
  }

  /** Text with no brace formats to itself, whatever the values. */
  lemma FormatPlain(s: string, values: map<string, string>)
    requires Plain(s)
    ensures Format(s, values) == Formatted(s)
  {
    FormatPlainPrefix(s, "", values);
    assert s + "" == s;
  }

  /** The first pass of a two-pass substitution leaves, for every key it
      binds, either final brace-free text (the same text the one-pass values
      give) or a single `{m}` field that the second pass binds (to the value the
      one-pass values give for the key). */
  ghost predicate Defers(first: map<string, string>, second: map<string, string>, oneShot: map<string, string>) {
    forall n :: n in first ==> n in oneShot && DefersKey(first[n], second, oneShot[n])
  }

  predicate DefersKey(v: string, second: map<string, string>, final: string) {
    || (Plain(v) && final == v)
    || (|v| >= 2 && v[0] == '{' && v[|v| - 1] == '}' && IsFieldName(v[1..|v| - 1])
        && v[1..|v| - 1] in second && final == second[v[1..|v| - 1]])
  }

  /** Formatting with `first` and then formatting the result with `second`
      is the same as formatting once with `oneShot`, whenever the first pass
      succeeds and defers to the second in the sense above. */
  lemma {:induction false} TwoPass(s: string, first: map<string, string>, second: map<string, string>, oneShot: map<string, string>)
    requires Defers(first, second, oneShot)
    requires Format(s, first).Formatted?
    ensures Format(Format(s, first).text, second) == Format(s, oneShot)
    ensures Format(s, oneShot).Formatted?
    decreases |s|
  {
    if |s| > 0 {
      if s[0] == '{' {
        var k := IndexOf(s[1..], '}');
        assert k < |s| - 1;
        var rest := s[k + 2..];
        TwoPass(rest, first, second, oneShot);
        TwoPassFieldStep(s, first, second, oneShot);
      } else {
        TwoPass(s[1..], first, second, oneShot);
        var u := Format(s, first).text;
        assert u[0] == s[0] && u[1..] == Format(s[1..], first).text;
      }
    }
  }

  /** A template that starts with a field and formats starts with a bound
      keyword field. */
  lemma FormattedField(s: string, values: map<string, string>)
    requires Format(s, values).Formatted?
    requires |s| > 0 && s[0] == '{'
    ensures IndexOf(s[1..], '}') < |s| - 1
    ensures IsFieldName(s[1..IndexOf(s[1..], '}') + 1]) && s[1..IndexOf(s[1..], '}') + 1] in values
  {
  }

  /** A template that starts with a bound keyword field formats to the
      field's value followed by the rest, formatted. */
  lemma FormatAtField(s: string, values: map<string, string>)
    requires |s| > 0 && s[0] == '{'
    requires IndexOf(s[1..], '}') < |s| - 1
    requires IsFieldName(s[1..IndexOf(s[1..], '}') + 1]) && s[1..IndexOf(s[1..], '}') + 1] in values
    ensures Format(s, values) ==
      Prepend(values[s[1..IndexOf(s[1..], '}') + 1]], Format(s[IndexOf(s[1..], '}') + 2..], values))
  {
  }

  lemma BracedIsField(v: string)
    requires |v| >= 2 && v[0] == '{' && v[|v| - 1] == '}'
    ensures v == Field(v[1..|v| - 1])
  {
  }

  /** The step of `TwoPass` for a template that starts with a field. */
  lemma TwoPassFieldStep(s: string, first: map<string, string>, second: map<string, string>, oneShot: map<string, string>)
    requires Defers(first, second, oneShot)
    requires Format(s, first).Formatted?
    requires |s| > 0 && s[0] == '{'
    requires IndexOf(s[1..], '}') < |s| - 1
    requires var rest := s[IndexOf(s[1..], '}') + 2..];
      && Format(rest, first).Formatted?
      && Format(Format(rest, first).text, second) == Format(rest, oneShot)
      && Format(rest, oneShot).Formatted?
    ensures Format(Format(s, first).text, second) == Format(s, oneShot)
    ensures Format(s, oneShot).Formatted?
  {
    var k := IndexOf(s[1..], '}');
    var name := s[1..k + 1];
    FormattedField(s, first);
    var rest := s[k + 2..];
    var u' := Format(rest, first).text;
    var v := first[name];
    assert DefersKey(v, second, oneShot[name]);
    FormatAtField(s, first);
    FormatAtField(s, oneShot);
    assert Format(s, first).text == v + u';
    DeferredPrefix(v, u', second, oneShot[name]);
  }

  /** A first-pass value in front of the rest of the text becomes, in the
      second pass, the one-pass value. */
  lemma DeferredPrefix(v: string, u: string, second: map<string, string>, final: string)
    requires DefersKey(v, second, final)
    ensures Format(v + u, second) == Prepend(final, Format(u, second))
  {
    if Plain(v) {
      FormatPlainPrefix(v, u, second);
    } else {
      BracedIsField(v);
      FormatFieldPrefix(v[1..|v| - 1], u, second);
    }
  }
}

/**
 * The translation hook: `{{key}}` template substitution over the message
 * text, and the lookup chain current locale, then English, then the key
 * itself.
 */
module Translation {
  import opened Wrappers
  import opened Text

  /** A value of the `vars` record: a string or a (whole) number. */
  datatype VarValue = StrVar(s: string) | IntVar(i: int)

  /** `String(value)`. */
  function ValueText(v: VarValue): string {
    match v
    case StrVar(s) => s
    case IntVar(i) => IntToString(i)
  }

  /** The placeholder a key stands for in a message: `{{key}}`. */
  function Placeholder(key: string): (p: string)
    ensures |p| == |key| + 4 && StartsWith(p, "{{")
  {
    "{{" + key + "}}"
  }

  /** The `reduce` over the keys of `vars`, in `Object.keys` order: each key rewrites the previous result. */
  function ApplyVars(message: string, vars: seq<(string, VarValue)>): string
    decreases |vars|
  {
    if vars == [] then message
    else ApplyVars(ReplaceAll(message, Placeholder(vars[0].0), ValueText(vars[0].1)), vars[1..])
  }

  /** formatMessage: the message unchanged without vars, else every var substituted in turn. */
  function FormatMessage(message: string, vars: Option<seq<(string, VarValue)>>): (r: string)
    ensures vars.None? ==> r == message
  {
    match vars
    case None => message
    case Some(vs) => ApplyVars(message, vs)
  }

  /** Substitution applies the keys one after another, each to the previous result. */
  lemma {:induction false} ApplyVarsSnoc(message: string, vars: seq<(string, VarValue)>, key: string, value: VarValue)
    ensures ApplyVars(message, vars + [(key, value)])
         == ReplaceAll(ApplyVars(message, vars), Placeholder(key), ValueText(value))
    decreases |vars|
  {
    if vars != [] {
      assert (vars + [(key, value)])[1..] == vars[1..] + [(key, value)];
      ApplyVarsSnoc(ReplaceAll(message, Placeholder(vars[0].0), ValueText(vars[0].1)), vars[1..], key, value);
    }
  }

  /** A message holding none of the supplied placeholders comes back unchanged. */
  lemma {:induction false} ApplyVarsUntouched(message: string, vars: seq<(string, VarValue)>)
    requires forall i :: 0 <= i < |vars| ==> !Contains(message, Placeholder(vars[i].0))
    ensures ApplyVars(message, vars) == message
    decreases |vars|
  {
    if vars != [] {
      ReplaceAllAbsent(message, Placeholder(vars[0].0), ValueText(vars[0].1));
      ApplyVarsUntouched(message, vars[1..]);
    }
  }

  /** A '$'-free value replaces every occurrence of its placeholder: the message split at the placeholder, joined with the value. */
  lemma FormatOneVar(message: string, key: string, value: VarValue)
    requires forall i :: 0 <= i < |ValueText(value)| ==> ValueText(value)[i] != '$'
    ensures FormatMessage(message, Some([(key, value)]))
         == Join(Split(message, Placeholder(key)), ValueText(value))
  {
    ReplaceFromIsSplitJoin(message, Placeholder(key), ValueText(value), 0);
    var once := ReplaceAll(message, Placeholder(key), ValueText(value));
    assert ApplyVars(message, [(key, value)]) == ApplyVars(once, []);
  }

  /* ------------------------------------------------------------------ */
  /* Templates made of text and placeholders                             */
  /* ------------------------------------------------------------------ */

  /** Text that substitution leaves alone and that forms no placeholder: no brace and no '$'. */
  predicate IsPlain(s: string) {
    forall i :: 0 <= i < |s| ==> s[i] != '{' && s[i] != '}' && s[i] != '$'
  }

  /** A piece of a message: literal text, or the placeholder of a key. */
  datatype Piece = Literal(text: string) | Hole(key: string)

  function PieceText(piece: Piece): string {
    match piece
    case Literal(t) => t
    case Hole(k) => Placeholder(k)
  }

  /** The message the pieces spell, first to last. */
  function Render(pieces: seq<Piece>): string
    decreases |pieces|
  {
    if pieces == [] then "" else PieceText(pieces[0]) + Render(pieces[1..])
  }

  /** Every literal and every key is plain. */
  predicate PlainPieces(pieces: seq<Piece>) {
    forall i :: 0 <= i < |pieces| ==> IsPlain(if pieces[i].Literal? then pieces[i].text else pieces[i].key)
  }

  /** The pieces with every placeholder of `key` filled with `value`. */
  function Fill(pieces: seq<Piece>, key: string, value: string): (r: seq<Piece>)
    ensures |r| == |pieces|
    ensures forall i :: 0 <= i < |pieces| ==> r[i] == if pieces[i] == Hole(key) then Literal(value) else pieces[i]
  {
    seq(|pieces|, i requires 0 <= i < |pieces| => if pieces[i] == Hole(key) then Literal(value) else pieces[i])
  }

  /** The pieces with the vars filled in, in order. */
  function FillAll(pieces: seq<Piece>, vars: seq<(string, VarValue)>): seq<Piece>
    decreases |vars|
  {
    if vars == [] then pieces else FillAll(Fill(pieces, vars[0].0, ValueText(vars[0].1)), vars[1..])
  }

  /** Every key and every value of the vars is plain. */
  predicate PlainVars(vars: seq<(string, VarValue)>) {
    forall i :: 0 <= i < |vars| ==> IsPlain(vars[i].0) && IsPlain(ValueText(vars[i].1))
  }

  /** No placeholder starts inside plain text. */
  lemma NoPlaceholderInPlain(t: string, rest: string, key: string)
    requires IsPlain(t)
    ensures forall j :: 0 <= j < |t| ==> !OccursAt(t + rest, Placeholder(key), j)
  {
    forall j | 0 <= j < |t| ensures !OccursAt(t + rest, Placeholder(key), j) {
      assert (t + rest)[j] == t[j];
      MismatchAt(t + rest, Placeholder(key), j, 0);
    }
  }

  /** The placeholder of one plain key does not start inside the placeholder of another. */
  lemma NoPlaceholderInOther(other: string, rest: string, key: string)
    requires IsPlain(other) && IsPlain(key) && other != key
    ensures forall j :: 0 <= j < |Placeholder(other)| ==> !OccursAt(Placeholder(other) + rest, Placeholder(key), j)
  {
    var q := Placeholder(other);
    var p := Placeholder(key);
    var s := q + rest;
    forall j | 0 <= j < |q| ensures !OccursAt(s, p, j) {
      if j == 0 {
        DifferentOpening(other, key, rest);
      } else if j == 1 {
        assert s[2] == q[2] == (if |other| > 0 then other[0] else '}');
        MismatchAt(s, p, 1, 1);
      } else {
        assert s[j] == q[j] == (if j < |other| + 2 then other[j - 2] else '}');
        MismatchAt(s, p, j, 0);
      }
    }
  }

  /** The placeholder of one plain key does not open another's. */
  lemma DifferentOpening(other: string, key: string, rest: string)
    requires IsPlain(other) && IsPlain(key) && other != key
    ensures !OccursAt(Placeholder(other) + rest, Placeholder(key), 0)
  {
    var q := Placeholder(other);
    var p := Placeholder(key);
    var s := q + rest;
    if |key| < |other| {
      assert s[|key| + 2] == other[|key|];
      MismatchAt(s, p, 0, |key| + 2);
    } else if |key| > |other| {
      assert s[|other| + 2] == '}';
      MismatchAt(s, p, 0, |other| + 2);
    } else {
      var d :| 0 <= d < |key| && other[d] != key[d];
      assert s[d + 2] == other[d];
      MismatchAt(s, p, 0, d + 2);
    }
  }

  /** Filling a key keeps the pieces plain when its value is plain. */
  lemma FillPlain(pieces: seq<Piece>, key: string, value: string)
    requires PlainPieces(pieces) && IsPlain(value)
    ensures PlainPieces(Fill(pieces, key, value))
  {
  }

  /** Rendering after the first piece. */
  lemma RenderCons(pieces: seq<Piece>)
    requires pieces != []
    ensures Render(pieces) == PieceText(pieces[0]) + Render(pieces[1..])
  {
  }

  /**
   * replaceAll of a placeholder over a template of plain pieces fills
   * exactly the holes of that key: a placeholder never starts inside
   * plain text or inside the placeholder of another key.
   */
  lemma {:induction false} ReplaceHole(pieces: seq<Piece>, key: string, value: string)
    requires PlainPieces(pieces) && IsPlain(key) && IsPlain(value)
    ensures ReplaceAll(Render(pieces), Placeholder(key), value) == Render(Fill(pieces, key, value))
    decreases |pieces|
  {
    if pieces != [] {
      var rest := Render(pieces[1..]);
      var filled := Fill(pieces, key, value);
      assert PlainPieces(pieces[1..]) by {
        forall i | 0 <= i < |pieces[1..]| ensures pieces[1..][i] == pieces[i + 1] { }
      }
      ReplaceHole(pieces[1..], key, value);
      assert filled[1..] == Fill(pieces[1..], key, value);
      RenderCons(filled);
      assert IsPlain(if pieces[0].Literal? then pieces[0].text else pieces[0].key);
      match pieces[0]
      case Literal(t) =>
        NoPlaceholderInPlain(t, rest, key);
        ReplaceAfter(t, rest, Placeholder(key), value);
      case Hole(k) =>
        if k == key {
          ReplaceLeading(Placeholder(key), rest, value);
        } else {
          NoPlaceholderInOther(k, rest, key);
          ReplaceAfter(Placeholder(k), rest, Placeholder(key), value);
        }
    }
  }

  /**
   * formatMessage on a template of plain pieces with plain vars: every
   * placeholder of a supplied key is replaced by its value, and every
   * other part of the template, placeholders of keys not supplied
   * included, is left as it is.
   */
  lemma {:induction false} FormatFills(pieces: seq<Piece>, vars: seq<(string, VarValue)>)
    requires PlainPieces(pieces) && PlainVars(vars)
    ensures FormatMessage(Render(pieces), Some(vars)) == Render(FillAll(pieces, vars))
    decreases |vars|
  {
    if vars != [] {
      var key, value := vars[0].0, ValueText(vars[0].1);
      ReplaceHole(pieces, key, value);
      FillPlain(pieces, key, value);
      assert PlainVars(vars[1..]) by {
        forall i | 0 <= i < |vars[1..]| ensures vars[1..][i] == vars[i + 1] { }
      }
      FormatFills(Fill(pieces, key, value), vars[1..]);
    }
  }

  /** Filling keeps literals, and keeps the holes of keys the vars do not supply. */
  lemma {:induction false} FillAllKeeps(pieces: seq<Piece>, vars: seq<(string, VarValue)>, i: nat)
    requires i < |pieces|
    requires pieces[i].Hole? ==> forall j :: 0 <= j < |vars| ==> vars[j].0 != pieces[i].key
    ensures |FillAll(pieces, vars)| == |pieces| && FillAll(pieces, vars)[i] == pieces[i]
    decreases |vars|
  {
    if vars != [] {
      var next := Fill(pieces, vars[0].0, ValueText(vars[0].1));
      assert next[i] == pieces[i];
      FillAllKeeps(next, vars[1..], i);
    }
  }

  /** The translation tables: locale, then key, to message text. */
  type Tables = map<string, map<string, string>>

  const FallbackLocale: string := "en"

  /**
   * The message for `key`: from the current locale's table (the English one
   * when the locale has none), else from the English table, else the key.
   */
  function Lookup(tables: Tables, locale: string, key: string): (r: string)
    requires FallbackLocale in tables
    ensures locale in tables && key in tables[locale] ==> r == tables[locale][key]
    ensures (locale !in tables || key !in tables[locale]) && key in tables[FallbackLocale] ==>
      r == tables[FallbackLocale][key]
    ensures (locale !in tables || key !in tables[locale]) && key !in tables[FallbackLocale] ==> r == key
  {
    var messages := if locale in tables then tables[locale] else tables[FallbackLocale];
    var fallbackMessages := tables[FallbackLocale];
    if key in messages then messages[key]
    else if key in fallbackMessages then fallbackMessages[key]
    else key
  }

  /** An unknown locale reads exactly as English. */
  lemma UnknownLocaleIsEnglish(tables: Tables, locale: string, key: string)
    requires FallbackLocale in tables && locale !in tables
    ensures Lookup(tables, locale, key) == Lookup(tables, FallbackLocale, key)
  {
  }

  /** The message comes from one of the two tables, or is the key. */
  lemma LookupSource(tables: Tables, locale: string, key: string)
    requires FallbackLocale in tables
    ensures var r := Lookup(tables, locale, key);
      || (locale in tables && key in tables[locale] && r == tables[locale][key])
      || (key in tables[FallbackLocale] && r == tables[FallbackLocale][key])
      || r == key
  {
  }

  /** `t(key, vars)`: the looked-up message with the vars substituted. */
  function Translate(tables: Tables, locale: string, key: string, vars: Option<seq<(string, VarValue)>>): (r: string)
    requires FallbackLocale in tables
    ensures vars.None? ==> r == Lookup(tables, locale, key)
  {
    FormatMessage(Lookup(tables, locale, key), vars)
  }
}

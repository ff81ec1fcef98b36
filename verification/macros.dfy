/** helper/macros.go: replacing `{key}`, `<key>` and `{key:left:N}` in a
    template.  Strings are sequences of bytes. */
module Macros {
  import opened Text

  const OPENERS := "{<"
  const CLOSERS := "}>"

  /** `bytes.IndexAny`: where the first of `chars` is, or -1. */
  function IndexAny(s: string, chars: string): (i: int)
    ensures -1 <= i < |s|
    ensures i == -1 ==> forall k | 0 <= k < |s| :: s[k] !in chars
    ensures i >= 0 ==> s[i] in chars && forall k | 0 <= k < i :: s[k] !in chars
  {
    if s == "" then -1
    else if s[0] in chars then 0
    else
      var i := IndexAny(s[1..], chars);
      if i == -1 then -1 else i + 1
  }

  // ----------------------------------------------------------------- fields

  /** What stands between the brackets; BadWidth is a width that is no number. */
  datatype Field = BadWidth | Field(key: string, mod: string, width: int)

  function ParseField(body: string): Field {
    var loc := IndexAny(body, ":");
    if loc <= 0 then Field(body, "", 0)
    else
      var key, rest := body[..loc], body[loc + 1..];
      var next := IndexAny(rest, ":");
      if next <= 0 then Field(key, "", 0)
      else
        var width := Atoi(rest[next + 1..]);
        if width.None? then BadWidth else Field(key, rest[..next], width.value)
  }

  function Zeros(n: nat): (z: string)
    ensures |z| == n
  {
    seq(n, _ => '0')
  }

  datatype Piece = Literal(text: string) | Bracketed(open: char, body: string, close: char) {
    function Text(): string {
      if Literal? then text else [open] + body + [close]
    }
  }

  /** What a piece turns into; None is the panic of a negative width. */
  function Render(p: Piece, macros: map<string, string>): Option<string> {
    if p.Literal? then Some(p.text)
    else
      var field := ParseField(p.body);
      if field.BadWidth? || field.key !in macros then Some(p.Text())
      else RenderKnown(p, field.mod, field.width, macros[field.key])
  }

  function RenderKnown(p: Piece, mod: string, width: int, value: string): Option<string> {
    if mod == "" then Some(value)
    else if mod != "left" && mod != "right" then Some(p.Text())
    else if width < 0 then None
    else if width > |value| then Some(Zeros(width - |value|) + value)
    else if mod == "left" then Some(value[..width])
    else Some(value[|value| - width..])
  }

  // ----------------------------------------------------------------- pieces

  /** The piece from the opening bracket at `left` to the closing one at `right`. */
  function FieldAt(s: string, left: nat, right: nat): Piece
    requires left < right < |s|
  {
    Bracketed(s[left], s[left + 1..right], s[right])
  }

  lemma FieldText(s: string, left: nat, right: nat)
    requires left < right < |s|
    ensures FieldAt(s, left, right).Bracketed? && FieldAt(s, left, right).body == s[left + 1..right]
    ensures FieldAt(s, left, right).Text() == s[left..right + 1]
  {
    var a, b := [s[left]] + s[left + 1..right] + [s[right]], s[left..right + 1];
    assert |a| == |b|;
    forall k | 0 <= k < |a| ensures a[k] == b[k] {}
  }

  /** No opening bracket is left, or no closing one. */
  predicate NoField(s: string) {
    IndexAny(s, OPENERS) == -1 || IndexAny(s, CLOSERS) == -1
  }

  /** The pieces up to the first closing bracket. */
  function Round(s: string): seq<Piece>
    requires !NoField(s)
  {
    var left, right := IndexAny(s, OPENERS), IndexAny(s, CLOSERS);
    if right < left then [Literal(s[..right + 1])]
    else Apart(s, left, right); [Literal(s[..left]), FieldAt(s, left, right)]
  }

  /** Cuts a template at its brackets. */
  function Pieces(s: string): seq<Piece>
    decreases |s|
  {
    if NoField(s) then [Literal(s)] else Round(s) + Pieces(s[IndexAny(s, CLOSERS) + 1..])
  }

  /** No character opens and closes. */
  lemma Apart(s: string, left: nat, right: nat)
    requires left < |s| && right < |s| && s[left] in OPENERS && s[right] in CLOSERS
    ensures left != right
  {
    assert OPENERS == ['{', '<'] && CLOSERS == ['}', '>'];
  }

  function Texts(pieces: seq<Piece>): string {
    if pieces == [] then "" else pieces[0].Text() + Texts(pieces[1..])
  }

  function Append(a: Option<string>, b: Option<string>): Option<string> {
    if a.None? || b.None? then None else Some(a.value + b.value)
  }

  /** The rendered pieces, in order. */
  function RenderAll(pieces: seq<Piece>, macros: map<string, string>): Option<string> {
    if pieces == [] then Some("") else Append(Render(pieces[0], macros), RenderAll(pieces[1..], macros))
  }

  lemma Cons(p: Piece, rest: seq<Piece>, macros: map<string, string>)
    ensures RenderAll([p] + rest, macros) == Append(Render(p, macros), RenderAll(rest, macros))
    ensures Texts([p] + rest) == p.Text() + Texts(rest)
  {
    assert ([p] + rest)[1..] == rest;
  }

  function Expand(s: string, macros: map<string, string>): Option<string> {
    RenderAll(Pieces(s), macros)
  }

  lemma PiecesStep(s: string)
    ensures NoField(s) ==> Pieces(s) == [Literal(s)]
    ensures !NoField(s) ==> Pieces(s) == Round(s) + Pieces(s[IndexAny(s, CLOSERS) + 1..])
  {
    hide IndexAny, Round, NoField;
  }

  lemma RoundIs(s: string, rest: seq<Piece>)
    requires !NoField(s)
    ensures var left, right := IndexAny(s, OPENERS), IndexAny(s, CLOSERS);
      if right < left then Round(s) + rest == [Literal(s[..right + 1])] + rest
      else left < right && Round(s) + rest == [Literal(s[..left])] + ([FieldAt(s, left, right)] + rest)
  {
    hide IndexAny, FieldAt;
    var left, right := IndexAny(s, OPENERS), IndexAny(s, CLOSERS);
    if right >= left {
      Apart(s, left, right);
      ConsTwo(Literal(s[..left]), FieldAt(s, left, right), rest);
    }
  }

  lemma ConsTwo(p: Piece, q: Piece, rest: seq<Piece>)
    ensures [p, q] + rest == [p] + ([q] + rest)
  {
  }

  /** One round of the scan, seen from `Expand`. */
  lemma ExpandStep(s: string, macros: map<string, string>)
    ensures var left, right := IndexAny(s, OPENERS), IndexAny(s, CLOSERS);
      if left == -1 || right == -1 then Expand(s, macros) == Some(s)
      else if right < left then Expand(s, macros) == Append(Some(s[..right + 1]), Expand(s[right + 1..], macros))
      else
        && left < right
        && Expand(s, macros)
            == Append(Append(Some(s[..left]), Render(FieldAt(s, left, right), macros)), Expand(s[right + 1..], macros))
  {
    hide IndexAny, RenderAll, Pieces, FieldAt, Round, Render, Append;
    var left, right := IndexAny(s, OPENERS), IndexAny(s, CLOSERS);
    PiecesStep(s);
    if left == -1 || right == -1 {
      OneLiteral(s, macros);
    } else {
      var rest := Pieces(s[right + 1..]);
      RoundIs(s, rest);
      if right < left {
        Cons(Literal(s[..right + 1]), rest, macros);
        RenderLiteral(s[..right + 1], macros);
      } else {
        var field := FieldAt(s, left, right);
        Cons(Literal(s[..left]), [field] + rest, macros);
        Cons(field, rest, macros);
        RenderLiteral(s[..left], macros);
        AppendAssociates(Some(s[..left]), Render(field, macros), RenderAll(rest, macros));
      }
    }
  }

  lemma RenderLiteral(text: string, macros: map<string, string>)
    ensures Render(Literal(text), macros) == Some(text)
  {
  }

  lemma OneLiteral(s: string, macros: map<string, string>)
    ensures RenderAll([Literal(s)], macros) == Some(s) && Texts([Literal(s)]) == s
  {
    assert [Literal(s)] == [Literal(s)] + [];
    Cons(Literal(s), [], macros);
    assert s + "" == s;
  }

  /** The part of `ReplaceMacros` that takes a field apart. */
  method DecodeField(body: string) returns (result: Field)
    ensures result == ParseField(body)
  {
    hide IndexAny, Atoi;
    var field, key, mod, width := body, body, "", 0;
    var loc := IndexAny(field, ":");
    if loc > 0 {
      key := field[..loc];
      field := field[loc + 1..];
      loc := IndexAny(field, ":");
      if loc > 0 {
        mod := field[..loc];
        var number := Atoi(field[loc + 1..]);
        if number.None? { return BadWidth; }
        width := number.value;
      }
    }
    return Field(key, mod, width);
  }

  method ReplaceMacros(s: string, macros: map<string, string>) returns (result: Option<string>)
    ensures result == Expand(s, macros)
  {
    hide Expand, Append, Pieces, IndexAny, Render, ParseField, FieldAt, Piece.Text;
    var ret, p := "", s;
    EmptyAppend(Expand(s, macros));
    while true
      invariant Expand(s, macros) == Append(Some(ret), Expand(p, macros))
      decreases |p|
    {
      var left := IndexAny(p, OPENERS);
      if left == -1 {
        LastStep(ret, p, macros);
        ret := ret + p;
        break;
      }
      var right := IndexAny(p, CLOSERS);
      if right == -1 {
        LastStep(ret, p, macros);
        ret := ret + p;
        break;
      }
      if right < left {
        CloserStep(ret, p, macros);
        ret := ret + p[..right + 1];
        p := p[right + 1..];
        continue;
      }
      FieldStep(ret, p, macros);
      ghost var piece := FieldAt(p, left, right);
      FieldText(p, left, right);
      RenderCases(piece, macros);
      ret := ret + p[..left];
      var field := DecodeField(p[left + 1..right]);
      if field.BadWidth? || field.key !in macros {
        ret := ret + p[left..right + 1];
        p := p[right + 1..];
        continue;
      }
      var value, width := macros[field.key], field.width;
      if |field.mod| > 0 {
        if field.mod == "left" || field.mod == "right" {
          if width < 0 { return None; }
          if width > |value| {
            value := Zeros(width - |value|) + value;
          } else if field.mod == "left" {
            value := value[..width];
          } else {
            value := value[|value| - width..];
          }
        } else {
          ret := ret + p[left..right + 1];
          p := p[right + 1..];
          continue;
        }
      }
      ret := ret + value;
      p := p[right + 1..];
    }
    return Some(ret);
  }

  lemma RenderCases(p: Piece, macros: map<string, string>)
    requires p.Bracketed?
    ensures ParseField(p.body).BadWidth? || ParseField(p.body).key !in macros ==> Render(p, macros) == Some(p.Text())
    ensures ParseField(p.body).Field? && ParseField(p.body).key in macros ==>
      var field := ParseField(p.body);
      Render(p, macros) == RenderKnown(p, field.mod, field.width, macros[field.key])
  {
  }

  lemma EmptyAppend(a: Option<string>)
    ensures Append(Some(""), a) == a
  {
    if a.Some? { assert "" + a.value == a.value; }
  }

  lemma AppendSome(a: string, b: string)
    ensures Append(Some(a), Some(b)) == Some(a + b)
  {
  }

  lemma LastStep(ret: string, p: string, macros: map<string, string>)
    requires IndexAny(p, OPENERS) == -1 || IndexAny(p, CLOSERS) == -1
    ensures Append(Some(ret), Expand(p, macros)) == Some(ret + p)
  {
    hide Expand, IndexAny;
    ExpandStep(p, macros);
  }

  lemma CloserStep(ret: string, p: string, macros: map<string, string>)
    requires 0 <= IndexAny(p, CLOSERS) < IndexAny(p, OPENERS)
    ensures var right := IndexAny(p, CLOSERS);
      Append(Some(ret), Expand(p, macros)) == Append(Some(ret + p[..right + 1]), Expand(p[right + 1..], macros))
  {
    hide Expand, IndexAny, Append;
    var right := IndexAny(p, CLOSERS);
    AppendSome(ret, p[..right + 1]);
    ExpandStep(p, macros);
    AppendAssociates(Some(ret), Some(p[..right + 1]), Expand(p[right + 1..], macros));
  }

  lemma FieldStep(ret: string, p: string, macros: map<string, string>)
    requires 0 <= IndexAny(p, OPENERS) <= IndexAny(p, CLOSERS)
    ensures var left, right := IndexAny(p, OPENERS), IndexAny(p, CLOSERS);
      && left < right
      && var value := Render(FieldAt(p, left, right), macros);
         Append(Some(ret), Expand(p, macros)) ==
           if value.None? then None else Append(Some(ret + p[..left] + value.value), Expand(p[right + 1..], macros))
  {
    hide Expand, IndexAny, Render, FieldAt;
    var left, right := IndexAny(p, OPENERS), IndexAny(p, CLOSERS);
    ExpandStep(p, macros);
    var value := Render(FieldAt(p, left, right), macros);
    if value.Some? {
      AppendAssociates(Some(ret), Some(p[..left] + value.value), Expand(p[right + 1..], macros));
      assert ret + (p[..left] + value.value) == ret + p[..left] + value.value;
    }
  }

  lemma AppendAssociates(a: Option<string>, b: Option<string>, c: Option<string>)
    ensures Append(a, Append(b, c)) == Append(Append(a, b), c)
  {
    if a.Some? && b.Some? && c.Some? {
      assert a.value + (b.value + c.value) == a.value + b.value + c.value;
    }
  }

  // -------------------------------------------------------------- the laws

  /** The pieces are the template: nothing is lost, added or moved. */
  lemma {:induction false} PiecesAreTemplate(s: string)
    ensures Texts(Pieces(s)) == s
    decreases |s|
  {
    hide IndexAny, Texts, RenderAll, FieldAt, Piece.Text, Pieces, Round;
    var left, right := IndexAny(s, OPENERS), IndexAny(s, CLOSERS);
    PiecesStep(s);
    if left == -1 || right == -1 {
      OneLiteral(s, map[]);
    } else {
      PiecesAreTemplate(s[right + 1..]);
      var rest := Pieces(s[right + 1..]);
      RoundIs(s, rest);
      if right < left {
        Cons(Literal(s[..right + 1]), rest, map[]);
        LiteralText(s[..right + 1]);
      } else {
        var field := FieldAt(s, left, right);
        FieldText(s, left, right);
        Cons(Literal(s[..left]), [field] + rest, map[]);
        Cons(field, rest, map[]);
        LiteralText(s[..left]);
        Slices(s, left, right + 1);
      }
    }
  }

  lemma LiteralText(s: string)
    ensures Literal(s).Text() == s
  {
  }

  lemma Slices(s: string, i: nat, j: nat)
    requires i <= j <= |s|
    ensures s[..i] + (s[i..j] + s[j..]) == s
  {
  }

  /** A template in which no field names a macro stays as it is. */
  lemma NoMatchNoChange(s: string, macros: map<string, string>)
    requires forall p | p in Pieces(s) && p.Bracketed? ::
               ParseField(p.body).BadWidth? || ParseField(p.body).key !in macros
    ensures Expand(s, macros) == Some(s)
  {
    PiecesAreTemplate(s);
    RenderTexts(Pieces(s), macros);
  }

  lemma {:induction false} RenderTexts(pieces: seq<Piece>, macros: map<string, string>)
    requires forall p | p in pieces :: Render(p, macros) == Some(p.Text())
    ensures RenderAll(pieces, macros) == Some(Texts(pieces))
  {
    hide Render;
    if pieces != [] {
      assert pieces[0] in pieces;
      RenderTexts(pieces[1..], macros);
    }
  }

  /** A macro asked for with a negative width. */
  predicate NegativeWidth(p: Piece, macros: map<string, string>) {
    && p.Bracketed?
    && var field := ParseField(p.body);
       field.Field? && field.key in macros && field.mod in {"left", "right"} && field.width < 0
  }

  /** Expansion panics exactly when a field of the template asks for a negative width. */
  lemma PanicsExactlyWhen(s: string, macros: map<string, string>)
    ensures Expand(s, macros).None? <==> exists p :: p in Pieces(s) && NegativeWidth(p, macros)
  {
    PieceFails(Pieces(s), macros);
  }

  lemma {:induction false} PieceFails(pieces: seq<Piece>, macros: map<string, string>)
    ensures RenderAll(pieces, macros).None? <==> exists p :: p in pieces && NegativeWidth(p, macros)
  {
    hide ParseField;
    if pieces != [] {
      PieceFails(pieces[1..], macros);
      assert pieces == [pieces[0]] + pieces[1..];
      assert Render(pieces[0], macros).None? <==> NegativeWidth(pieces[0], macros);
      hide Render, NegativeWidth;
    }
  }

  /** Text without an opening bracket, then a field, then anything. */
  lemma {:induction false} ExpandInOrder(text: string, field: Piece, rest: string, macros: map<string, string>)
    requires forall k | 0 <= k < |text| :: text[k] !in OPENERS
    requires field.Bracketed? && field.open in OPENERS && field.close in CLOSERS
    requires forall k | 0 <= k < |field.body| :: field.body[k] !in CLOSERS
    ensures Expand(text + field.Text() + rest, macros)
         == Append(Append(Some(text), Render(field, macros)), Expand(rest, macros))
    decreases |text|
  {
    hide Render, Expand, IndexAny, Append, FieldAt, Piece.Text;
    var s := text + field.Text() + rest;
    ExpandStep(s, macros);
    BracketsAt(text, field, rest);
    var right := IndexAny(s, CLOSERS);
    if right < |text| {
      var first, later := text[..right + 1], text[right + 1..];
      CutText(text, right + 1, field.Text(), rest);
      ExpandInOrder(later, field, rest, macros);
      assert Expand(s, macros) == Append(Some(first), Expand(later + field.Text() + rest, macros));
      Regroup(first, later, Render(field, macros), Expand(rest, macros));
    } else {
      CutField(text, field, rest);
      assert FieldAt(s, |text|, right) == field;
    }
  }

  lemma CutText(text: string, n: nat, raw: string, rest: string)
    requires n <= |text|
    ensures var s := text + raw + rest;
      s[..n] == text[..n] && s[n..] == text[n..] + raw + rest && text[..n] + text[n..] == text
  {
  }

  lemma CutField(text: string, field: Piece, rest: string)
    requires field.Bracketed?
    ensures var s, right := text + field.Text() + rest, |text| + 1 + |field.body|;
      s[..|text|] == text && FieldAt(s, |text|, right) == field && s[right + 1..] == rest
  {
    var s, right := text + field.Text() + rest, |text| + 1 + |field.body|;
    assert s[|text| + 1..right] == field.body;
  }

  lemma Regroup(first: string, later: string, value: Option<string>, end: Option<string>)
    ensures Append(Some(first), Append(Append(Some(later), value), end))
            == Append(Append(Some(first + later), value), end)
  {
    AppendAssociates(Some(first), Append(Some(later), value), end);
    AppendAssociates(Some(first), Some(later), value);
  }

  lemma BracketsAt(text: string, field: Piece, rest: string)
    requires forall k | 0 <= k < |text| :: text[k] !in OPENERS
    requires field.Bracketed? && field.open in OPENERS && field.close in CLOSERS
    requires forall k | 0 <= k < |field.body| :: field.body[k] !in CLOSERS
    ensures var s := text + field.Text() + rest;
      && IndexAny(s, OPENERS) == |text| && s[|text|] == field.open
      && (0 <= IndexAny(s, CLOSERS) < |text| || IndexAny(s, CLOSERS) == |text| + 1 + |field.body|)
      && s[|text| + 1 + |field.body|] == field.close
  {
    var s := text + field.Text() + rest;
    var end := |text| + 1 + |field.body|;
    assert s[|text|] == field.open && s[end] == field.close;
    forall j | 0 <= j < |text| ensures s[j] !in OPENERS { assert s[j] == text[j]; }
    forall j | |text| < j < end ensures s[j] !in CLOSERS { assert s[j] == field.body[j - |text| - 1]; }
    if IndexAny(s, CLOSERS) == |text| { Apart(s, |text|, |text|); }
  }

  /** Text without an opening bracket, or without a closing one, stays. */
  lemma {:induction false} ExpandPlain(text: string, macros: map<string, string>)
    requires (forall k | 0 <= k < |text| :: text[k] !in OPENERS) || (forall k | 0 <= k < |text| :: text[k] !in CLOSERS)
    ensures Expand(text, macros) == Some(text)
  {
    hide Expand;
    ExpandStep(text, macros);
  }

  /** No colon, or nothing before the first one. */
  predicate Unsplit(s: string) {
    ':' !in s || s[0] == ':'
  }

  lemma UnsplitField(body: string)
    requires Unsplit(body)
    ensures ParseField(body) == Field(body, "", 0)
  {
    hide Atoi;
    assert forall k | 0 <= k < |body| :: body[k] in ":" <==> body[k] == ':';
  }

  /** `{key}` contributes the value of the macro, whatever it is; a key that begins with a
      colon goes to the end. */
  lemma PlainField(open: char, key: string, close: char, macros: map<string, string>)
    requires Unsplit(key)
    ensures var field := Bracketed(open, key, close);
            Render(field, macros) == Some(if key in macros then macros[key] else field.Text())
  {
    hide ParseField;
    UnsplitField(key);
  }

  /** So does `{key:x}`, without a second colon after a modifier. */
  lemma IgnoredTail(open: char, key: string, tail: string, close: char, macros: map<string, string>)
    requires key != "" && ':' !in key && Unsplit(tail)
    ensures var field := Bracketed(open, key + ":" + tail, close);
            Render(field, macros) == Some(if key in macros then macros[key] else field.Text())
  {
    TailField(key, tail);
    hide ParseField;
  }

  lemma TailField(key: string, tail: string)
    requires key != "" && ':' !in key && Unsplit(tail)
    ensures ParseField(key + ":" + tail) == Field(key, "", 0)
  {
    hide Atoi, IndexAny, Unsplit;
    FirstColon(key, tail);
    assert (key + ":" + tail)[..|key|] == key && (key + ":" + tail)[|key| + 1..] == tail;
    NotSplit(tail);
  }

  lemma NotSplit(s: string)
    requires Unsplit(s)
    ensures IndexAny(s, ":") <= 0
  {
    assert forall k | 0 <= k < |s| :: s[k] in ":" <==> s[k] == ':';
  }

  /** A plain field in a template: the value takes its place. */
  lemma PlainTemplate(text: string, open: char, key: string, close: char, rest: string, macros: map<string, string>)
    requires (forall k | 0 <= k < |text| :: text[k] !in OPENERS) && open in OPENERS && close in CLOSERS
    requires ':' !in key && (forall k | 0 <= k < |key| :: key[k] !in CLOSERS) && key in macros
    ensures Expand(text + ([open] + key + [close]) + rest, macros)
         == Append(Some(text + macros[key]), Expand(rest, macros))
  {
    hide Expand, Render;
    PlainField(open, key, close, macros);
    ExpandInOrder(text, Bracketed(open, key, close), rest, macros);
  }

  /** A field with a modifier stays as it is when the width is no number, the macro is not
      known, or the modifier is another. */
  lemma OddField(open: char, key: string, mod: string, digits: string, close: char, macros: map<string, string>)
    requires key != "" && ':' !in key && mod != "" && ':' !in mod
    requires Atoi(digits).None? || key !in macros || mod !in {"left", "right"}
    ensures var field := Bracketed(open, key + ":" + (mod + ":" + digits), close);
            Render(field, macros) == Some(field.Text())
  {
    hide Atoi, IndexAny;
    SplitField(key, mod, digits);
  }

  lemma SplitField(key: string, mod: string, digits: string)
    requires key != "" && ':' !in key && mod != "" && ':' !in mod
    ensures ParseField(key + ":" + (mod + ":" + digits))
         == if Atoi(digits).None? then BadWidth else Field(key, mod, Atoi(digits).value)
  {
    hide Atoi, IndexAny;
    var body := key + ":" + (mod + ":" + digits);
    FirstColon(key, mod + ":" + digits);
    FirstColon(mod, digits);
    assert body[|key| + 1..] == mod + ":" + digits && body[..|key|] == key;
    assert (mod + ":" + digits)[|mod| + 1..] == digits && (mod + ":" + digits)[..|mod|] == mod;
  }

  /** `left:N` and `right:N` contribute exactly N bytes: that end of the value,
      or all of it after enough zeros. */
  lemma FixedWidth(open: char, key: string, mod: string, digits: string, close: char, macros: map<string, string>)
    requires key != "" && ':' !in key && key in macros && mod in {"left", "right"} && Atoi(digits).Some?
    ensures var n, value := Atoi(digits).value, macros[key];
      var out := Render(Bracketed(open, key + ":" + (mod + ":" + digits), close), macros);
      if n < 0 then out.None?
      else
        && out.Some? && |out.value| == n
        && (n > |value| ==> HasSuffix(out.value, value) && forall k | 0 <= k < n - |value| :: out.value[k] == '0')
        && (n <= |value| && mod == "left" ==> out.value <= value)
        && (n <= |value| && mod == "right" ==> HasSuffix(value, out.value))
  {
    hide Atoi, IndexAny;
    SplitField(key, mod, digits);
  }

  lemma FirstColon(a: string, b: string)
    requires ':' !in a
    ensures IndexAny(a + ":" + b, ":") == |a|
  {
    hide IndexAny;
    var s := a + ":" + b;
    assert s[|a|] == ':';
    forall j | 0 <= j < |a| ensures s[j] !in ":" { assert s[j] == a[j]; }
  }
}

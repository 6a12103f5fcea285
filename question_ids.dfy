/** The question identity: the token the prompt carries in a trailing
    parenthetical, as the pattern `\(([\w-]+)\)\s*$` finds it, or the literal
    "ID" when there is none. */
module QuestionIds {
  import opened Base

  /** The identity given to every question whose prompt carries no token. */
  const DefaultId: string := "ID"

  /** The characters the token may contain: `\w` (taken as ASCII letters,
      digits and underscore) and the hyphen. */
  predicate IsIdChar(c: char) {
    ('a' <= c <= 'z') || ('A' <= c <= 'Z') || ('0' <= c <= '9') || c == '_' || c == '-'
  }

  predicate AllIdChars(s: string) {
    forall i | 0 <= i < |s| :: IsIdChar(s[i])
  }

  predicate AllSpaces(s: string) {
    forall i | 0 <= i < |s| :: IsSpace(s[i])
  }

  /** The pattern's reading of a prompt: `txt` is `pre`, then "(", the
      non-empty token `tok`, ")", and trailing whitespace `ws`. */
  predicate IdSuffix(txt: string, pre: string, tok: string, ws: string) {
    && txt == pre + "(" + tok + ")" + ws
    && tok != []
    && AllIdChars(tok)
    && AllSpaces(ws)
  }

  /** `s` without its trailing whitespace. */
  function TrimEnd(s: string): (t: string)
    ensures t <= s
    ensures AllSpaces(s[|t|..])
    ensures t == [] || !IsSpace(t[|t| - 1])
  {
    if s != [] && IsSpace(s[|s| - 1]) then TrimEnd(s[..|s| - 1]) else s
  }

  /** Where the longest run of token characters that ends `s` begins. */
  function RunStart(s: string): (k: nat)
    ensures k <= |s|
    ensures AllIdChars(s[k..])
    ensures k == 0 || !IsIdChar(s[k - 1])
  {
    if s != [] && IsIdChar(s[|s| - 1]) then RunStart(s[..|s| - 1]) else |s|
  }

  /** The token of the trailing parenthetical, scanning from the end: skip
      whitespace, expect ")", take the token characters, expect "(". */
  function FindId(txt: string): Option<string> {
    var t := TrimEnd(txt);
    if |t| >= 1 && t[|t| - 1] == ')' then
      var body := t[..|t| - 1];
      var k := RunStart(body);
      if 0 < k < |body| && body[k - 1] == '(' then Some(body[k..]) else None
    else
      None
  }

  /** The identity a question gets from its prompt. */
  function ExtractId(txt: string): string {
    FindId(txt).GetOr(DefaultId)
  }

  /** Removing whitespace appended after a character that is not whitespace
      gives back what was there before it. */
  lemma {:induction false} TrimEndAppend(x: string, ws: string)
    requires x != [] && !IsSpace(x[|x| - 1])
    requires AllSpaces(ws)
    ensures TrimEnd(x + ws) == x
    decreases |ws|
  {
    if ws == [] {
      assert x + ws == x;
    } else {
      var w' := ws[..|ws| - 1];
      assert (x + ws)[..|x + ws| - 1] == x + w';
      assert IsSpace((x + ws)[|x + ws| - 1]);
      TrimEndAppend(x, w');
    }
  }

  /** A run of token characters after a character that is not one is
      exactly the trailing run. */
  lemma {:induction false} RunStartAppend(p: string, tok: string)
    requires p == [] || !IsIdChar(p[|p| - 1])
    requires AllIdChars(tok)
    ensures RunStart(p + tok) == |p|
    decreases |tok|
  {
    if tok == [] {
      assert p + tok == p;
    } else {
      var t' := tok[..|tok| - 1];
      assert (p + tok)[..|p + tok| - 1] == p + t';
      assert IsIdChar((p + tok)[|p + tok| - 1]);
      RunStartAppend(p, t');
    }
  }

  /** Whatever the scanner finds is the pattern's token: the prompt has the
      shape `pre(tok)ws`. */
  lemma FindIdSound(txt: string)
    ensures FindId(txt).Some? ==> exists pre, ws :: IdSuffix(txt, pre, FindId(txt).value, ws)
  {
    if FindId(txt).Some? {
      var t := TrimEnd(txt);
      var body := t[..|t| - 1];
      var k := RunStart(body);
      var pre, tok, ws := body[..k - 1], body[k..], txt[|t|..];
      assert body == pre + "(" + tok;
      assert t == body + ")";
      assert txt == t + ws;
      assert IdSuffix(txt, pre, tok, ws);
    }
  }

  /** Whenever the prompt has the shape `pre(tok)ws`, the scanner finds
      exactly `tok`. */
  lemma FindIdComplete(txt: string, pre: string, tok: string, ws: string)
    requires IdSuffix(txt, pre, tok, ws)
    ensures FindId(txt) == Some(tok)
  {
    var head := pre + "(";
    var body := head + tok;
    var t := body + ")";
    assert txt == t + ws;
    TrimEndAppend(t, ws);
    assert TrimEnd(txt) == t;
    assert t[..|t| - 1] == body;
    RunStartAppend(head, tok);
    assert body[|head|..] == tok;
  }

  /** The identity is the token when the prompt ends in `(token)` and
      optional whitespace, and "ID" exactly when it does not. */
  lemma ExtractIdSpec(txt: string)
    ensures forall pre, tok, ws :: IdSuffix(txt, pre, tok, ws) ==> ExtractId(txt) == tok
    ensures (forall pre, tok, ws :: !IdSuffix(txt, pre, tok, ws)) ==> ExtractId(txt) == DefaultId
  {
    forall pre, tok, ws | IdSuffix(txt, pre, tok, ws)
      ensures ExtractId(txt) == tok
    {
      FindIdComplete(txt, pre, tok, ws);
    }
    FindIdSound(txt);
  }

  /** Identities are not unique: two different prompts without a token both
      get "ID", and so does a prompt whose token is literally "ID". */
  lemma IdsNotUnique()
    ensures ExtractId("Pump head?") == ExtractId("Pipe loss?") == DefaultId
    ensures ExtractId("Egress width (ID)") == DefaultId
  {
    FindIdComplete("Egress width (ID)", "Egress width ", "ID", "");
  }
}

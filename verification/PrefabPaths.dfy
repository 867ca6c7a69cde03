/** Encoding the names from the root down to an entity as one slash-joined path. */
module PrefabPaths {

  /** One escaped character. */
  function EscapeChar(c: char): string {
    if c == '%' then "%25" else if c == '/' then "%2F" else [c]
  }

  function Escape(name: string): string {
    if name == "" then "" else EscapeChar(name[0]) + Escape(name[1..])
  }

  /** Undoes the escaping. */
  function Unescape(s: string): string {
    if s == "" then ""
    else if |s| >= 3 && s[0] == '%' then [if s[..3] == "%25" then '%' else '/'] + Unescape(s[3..])
    else [s[0]] + Unescape(s[1..])
  }

  lemma UnescapeChar(c: char, rest: string)
    ensures Unescape(EscapeChar(c) + rest) == [c] + Unescape(rest)
  {
    var head := EscapeChar(c);
    assert (head + rest)[|head|..] == rest;
    if |head| == 3 { assert (head + rest)[..3] == head; }
  }

  lemma {:induction false} EscapeRoundTrip(name: string)
    ensures Unescape(Escape(name)) == name
    ensures '/' !in Escape(name)
    ensures Escape(name) == "" <==> name == ""
  {
    if name != "" {
      EscapeRoundTrip(name[1..]);
      UnescapeChar(name[0], Escape(name[1..]));
      assert name == [name[0]] + name[1..];
      hide Unescape;
    }
  }

  /** Only the percent sign and the slash are escaped, as their hexadecimal codes. */
  lemma {:induction false} EscapeMeans(name: string)
    ensures Escape("%") == "%25" && Escape("/") == "%2F"
    ensures '%' !in name && '/' !in name ==> Escape(name) == name
  {
    assert "%"[1..] == "" && "/"[1..] == "";
    if name != "" {
      EscapeMeans(name[1..]);
      assert forall c | c in name[1..] :: c in name;
      assert name == [name[0]] + name[1..];
    }
  }

  /** Names are escaped one after the other. */
  lemma {:induction false} EscapeConcat(a: string, b: string)
    ensures Escape(a + b) == Escape(a) + Escape(b)
  {
    if a == "" {
      assert a + b == b;
    } else {
      assert (a + b)[0] == a[0] && (a + b)[1..] == a[1..] + b;
      EscapeConcat(a[1..], b);
    }
  }

  /** The path of a nonempty list of names. */
  function Path(names: seq<string>): string {
    if names == [] then ""
    else if |names| == 1 then Escape(names[0])
    else Path(names[..|names| - 1]) + "/" + Escape(names[|names| - 1])
  }

  function Slashes(s: string): nat {
    if s == "" then 0 else Slashes(s[..|s| - 1]) + if s[|s| - 1] == '/' then 1 else 0
  }

  lemma {:induction false} SlashesConcat(a: string, b: string)
    ensures Slashes(a + b) == Slashes(a) + Slashes(b)
    decreases |b|
  {
    if b == "" {
      assert a + b == a;
    } else {
      assert (a + b)[..|a + b| - 1] == a + b[..|b| - 1];
      SlashesConcat(a, b[..|b| - 1]);
    }
  }

  lemma {:induction false} NoSlashes(s: string)
    requires '/' !in s
    ensures Slashes(s) == 0
  {
    if s != "" {
      assert forall c | c in s[..|s| - 1] :: c in s;
      NoSlashes(s[..|s| - 1]);
    }
  }

  /** The number of slashes is the depth. */
  lemma {:induction false} SlashesAreDepth(names: seq<string>)
    requires names != []
    ensures Slashes(Path(names)) == |names| - 1
  {
    var last := Escape(names[|names| - 1]);
    EscapeRoundTrip(names[|names| - 1]);
    NoSlashes(last);
    if |names| > 1 {
      var front := names[..|names| - 1];
      SlashesAreDepth(front);
      SlashesConcat(Path(front), "/");
      SlashesConcat(Path(front) + "/", last);
      assert Slashes("/") == 1 by { assert "/"[..0] == ""; }
    }
  }

  /** A slash-free tail after the last slash is determined by the whole. */
  lemma LastSegment(a: string, x: string, b: string, y: string)
    requires '/' !in x && '/' !in y && a + "/" + x == b + "/" + y
    ensures a == b && x == y
  {
    var s := a + "/" + x;
    assert s[|a|] == '/' && s[|b|] == '/';
    LastSlash(a, x);
    LastSlash(b, y);
    assert s[..|a|] == a && (b + "/" + y)[..|b|] == b;
    assert s[|a| + 1..] == x && (b + "/" + y)[|b| + 1..] == y;
  }

  lemma LastSlash(a: string, x: string)
    requires '/' !in x
    ensures forall k | |a| < k < |a + "/" + x| :: (a + "/" + x)[k] != '/'
  {
    forall k | |a| < k < |a + "/" + x| ensures (a + "/" + x)[k] != '/' {
      assert (a + "/" + x)[k] == x[k - |a| - 1];
    }
  }

  /** Paths are equal exactly when the name lists are. */
  lemma {:induction false} PathInjective(a: seq<string>, b: seq<string>)
    requires a != [] && b != [] && Path(a) == Path(b)
    ensures a == b
    decreases |a|
  {
    SlashesAreDepth(a);
    SlashesAreDepth(b);
    var la, lb := a[|a| - 1], b[|b| - 1];
    EscapeRoundTrip(la);
    EscapeRoundTrip(lb);
    if |a| == 1 {
      assert a == [la] && b == [lb];
    } else {
      var fa, fb := a[..|a| - 1], b[..|b| - 1];
      LastSegment(Path(fa), Escape(la), Path(fb), Escape(lb));
      PathInjective(fa, fb);
      assert a == fa + [la] && b == fb + [lb];
    }
  }

  lemma EscapeStep(escaped: string, c: char, rest: string)
    ensures escaped + (EscapeChar(c) + rest) == (escaped + EscapeChar(c)) + rest
  {
  }

  /** Escaping, as the loop does it. */
  method EscapePathSegment(name: string) returns (escaped: string)
    ensures escaped == Escape(name)
  {
    escaped := "";
    for i := 0 to |name|
      invariant escaped + Escape(name[i..]) == Escape(name)
    {
      assert name[i..][1..] == name[i + 1..];
      EscapeStep(escaped, name[i], Escape(name[i + 1..]));
      hide Escape;
      match name[i] {
        case '%' => escaped := escaped + "%25";
        case '/' => escaped := escaped + "%2F";
        case _ => escaped := escaped + [name[i]];
      }
    }
  }
}

/** What a terminal signs when it asks to use a secret. */
module SecretProtocol {
  import opened Wrappers
  import opened CodexContext
  import Decimal
  import Text

  datatype Request = Request(pty: Uuid, secret: Option<string>, tool: string, stamp: int, nonce: string)

  function CanonicalPayload(r: Request): string {
    "sulion-secret-use-v1\n" + (r.pty + "\n" + (r.tool + "\n" + (r.secret.GetOr("") + "\n" +
    (Decimal.RenderInt(r.stamp) + "\n" + (r.nonce + "\n")))))
  }

  predicate ValidSecretId(id: string) {
    id != [] && forall c | c in id :: Text.IsAlphanumeric(c) || c in "-_."
  }

  predicate ValidTool(tool: string) { tool in {"with-cred", "aws"} }

  /** A UUID prints as hexadecimal digits and dashes. */
  predicate UuidText(u: Uuid) {
    forall c | c in u :: '0' <= c <= '9' || 'a' <= c <= 'f' || c == '-'
  }

  /** What the handler accepts; the nonce may hold anything. */
  predicate Validated(r: Request) {
    && UuidText(r.pty)
    && ValidTool(r.tool)
    && (r.tool == "aws" ==> r.secret.Some?)
    && (r.secret.Some? ==> ValidSecretId(r.secret.value))
  }

  /** The signed text is seven lines, the last of them empty. */
  lemma PayloadIsLines(r: Request)
    ensures CanonicalPayload(r) ==
            Text.Join(["sulion-secret-use-v1", r.pty, r.tool, if r.secret.Some? then r.secret.value else "",
                       Decimal.RenderInt(r.stamp), r.nonce, ""], '\n')
  {
    hide Decimal.RenderInt, Text.Join;
    var secret := if r.secret.Some? then r.secret.value else "";
    JoinSeven("sulion-secret-use-v1", r.pty, r.tool, secret, Decimal.RenderInt(r.stamp), r.nonce);
    assert "sulion-secret-use-v1" + "\n" == "sulion-secret-use-v1\n";
  }

  lemma JoinSeven(a: string, b: string, c: string, d: string, e: string, f: string)
    ensures Text.Join([a, b, c, d, e, f, ""], '\n') ==
            a + "\n" + (b + "\n" + (c + "\n" + (d + "\n" + (e + "\n" + (f + "\n")))))
  {
    JoinEnd(f);
    hide Text.Join;
    JoinNext(e, [f, ""]);
    JoinNext(d, [e, f, ""]);
    JoinNext(c, [d, e, f, ""]);
    JoinNext(b, [c, d, e, f, ""]);
    JoinNext(a, [b, c, d, e, f, ""]);
    assert [e] + [f, ""] == [e, f, ""] && [d] + [e, f, ""] == [d, e, f, ""];
    assert [c] + [d, e, f, ""] == [c, d, e, f, ""] && [b] + [c, d, e, f, ""] == [b, c, d, e, f, ""];
    assert [a] + [b, c, d, e, f, ""] == [a, b, c, d, e, f, ""];
  }

  lemma JoinEnd(last: string)
    ensures Text.Join([last, ""], '\n') == last + "\n"
  {
    assert [last, ""][1..] == [""];
  }

  lemma JoinNext(part: string, more: seq<string>)
    requires more != []
    ensures Text.Join([part] + more, '\n') == part + "\n" + Text.Join(more, '\n')
  {
    assert ([part] + more)[1..] == more;
  }

  /** Which names pass: ids of ASCII letters, digits, dashes, underscores and dots, and two tools. */
  lemma NamesExactly(id: string, tool: string)
    ensures ValidSecretId(id) <==>
            id != "" && forall i | 0 <= i < |id| ::
              'a' <= id[i] <= 'z' || 'A' <= id[i] <= 'Z' || '0' <= id[i] <= '9' || id[i] == '-' || id[i] == '_' || id[i] == '.'
    ensures ValidTool(tool) <==> tool == "with-cred" || tool == "aws"
  {
    assert forall i | 0 <= i < |id| :: id[i] in id;
  }

  lemma FieldsHaveNoNewline(r: Request)
    requires Validated(r)
    ensures '\n' !in r.pty && '\n' !in r.tool && '\n' !in r.secret.GetOr("") && '\n' !in Decimal.RenderInt(r.stamp)
  {
  }

  /** Of validated requests, the signed text says which one it is. */
  lemma PayloadInjective(a: Request, b: Request)
    requires Validated(a) && Validated(b) && CanonicalPayload(a) == CanonicalPayload(b)
    ensures a == b
  {
    FieldsHaveNoNewline(a);
    FieldsHaveNoNewline(b);
    hide Validated, ValidTool;
    var header := "sulion-secret-use-v1\n";
    var p, q := CanonicalPayload(a)[|header|..], CanonicalPayload(b)[|header|..];
    var a4, b4 := a.nonce + "\n", b.nonce + "\n";
    var a3, b3 := Decimal.RenderInt(a.stamp) + "\n" + a4, Decimal.RenderInt(b.stamp) + "\n" + b4;
    var a2, b2 := a.secret.GetOr("") + "\n" + a3, b.secret.GetOr("") + "\n" + b3;
    var a1, b1 := a.tool + "\n" + a2, b.tool + "\n" + b2;
    assert p == a.pty + "\n" + a1 && q == b.pty + "\n" + b1;
    Text.SameCut(a.pty, a1, b.pty, b1, '\n');
    Text.SameCut(a.tool, a2, b.tool, b2, '\n');
    Text.SameCut(a.secret.GetOr(""), a3, b.secret.GetOr(""), b3, '\n');
    Text.SameCut(Decimal.RenderInt(a.stamp), a4, Decimal.RenderInt(b.stamp), b4, '\n');
    assert a4[..|a4| - 1] == a.nonce && b4[..|b4| - 1] == b.nonce;
    Decimal.RenderIntInjective(a.stamp, b.stamp);
    SecretShown(a, b);
  }

  lemma SecretShown(a: Request, b: Request)
    requires Validated(a) && Validated(b) && a.secret.GetOr("") == b.secret.GetOr("")
    ensures a.secret == b.secret
  {
  }

  /** Without the check of the secret id, one signature would cover two requests. */
  lemma UnvalidatedCollide(pty: Uuid, tool: string, id: string, m: int, n: int, nonce: string)
    ensures var a := Request(pty, Some(id + "\n" + Decimal.RenderInt(m)), tool, n, nonce);
      var b := Request(pty, Some(id), tool, m, Decimal.RenderInt(n) + "\n" + nonce);
      a != b && CanonicalPayload(a) == CanonicalPayload(b)
    ensures CanonicalPayload(Request(pty, None, tool, m, nonce)) == CanonicalPayload(Request(pty, Some(""), tool, m, nonce))
  {
    hide Decimal.RenderInt;
    var mm, nn := Decimal.RenderInt(m), Decimal.RenderInt(n);
    assert (id + "\n" + mm) + "\n" + (nn + "\n" + (nonce + "\n")) ==
           id + "\n" + (mm + "\n" + ((nn + "\n" + nonce) + "\n"));
    assert |id + "\n" + mm| > |id|;
  }
}

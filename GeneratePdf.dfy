/**
 * The `generate-pdf` function's names: the storage file name built from the sanitised employee
 * and template names, the labels of the document's fields and the text shown for their values.
 */
module GeneratePdf {
  import opened Wrappers
  import opened Strings
  import opened Collections
  import opened JsValues

  // ---------------------------------------------------------------------------------------
  // Sanitising a name

  /** U+0300 to U+036F, the combining diacritical marks `normalize('NFD')` splits off. */
  predicate CombiningMark(c: char) {
    '\U{0300}' <= c <= '\U{036F}'
  }

  predicate NotMark(c: char) {
    !CombiningMark(c)
  }

  /** `[a-zA-Z0-9\s]`. */
  predicate Allowed(c: char) {
    IsAsciiLetter(c) || IsDigit(c) || IsSpace(c)
  }

  /** The characters a sanitised name is made of. */
  predicate WordChar(c: char) {
    IsAsciiLetter(c) || IsDigit(c) || c == '_'
  }

  predicate AllWordChars(s: string) {
    forall i :: 0 <= i < |s| ==> WordChar(s[i])
  }

  predicate NoDoubleUnderscore(s: string) {
    forall i :: 0 <= i < |s| - 1 ==> !(s[i] == '_' && s[i + 1] == '_')
  }

  /** `.replace(/[̀-ͯ]/g, '')`. */
  function StripMarks(s: string): string {
    Filter(s, NotMark)
  }

  /** `.replace(/[^a-zA-Z0-9\s]/g, '')`. */
  function KeepAllowed(s: string): string {
    Filter(s, Allowed)
  }

  /** Drops the `_` at the front of `s`. */
  function DropLeadingUnderscores(s: string): (r: string)
    ensures |r| <= |s| && r == s[|s| - |r|..]
    ensures r == [] || r[0] != '_'
  {
    if s == [] || s[0] != '_' then s else DropLeadingUnderscores(s[1..])
  }

  /** `.replace(/_+/g, '_')`. */
  function SqueezeUnderscores(s: string): string
    decreases |s|
  {
    if s == [] then []
    else if s[0] == '_' then "_" + SqueezeUnderscores(DropLeadingUnderscores(s[1..]))
    else [s[0]] + SqueezeUnderscores(s[1..])
  }

  /** `.replace(/^_|_$/g, '')`: one `_` off the front and one off the back. */
  function TrimUnderscore(s: string): string {
    var front := if s != [] && s[0] == '_' then s[1..] else s;
    if front != [] && front[|front| - 1] == '_' then front[..|front| - 1] else front
  }

  /** `.substring(0, limit)`. */
  function Truncate(s: string, limit: nat): string {
    if |s| <= limit then s else s[..limit]
  }

  /** The untruncated name: every step of the chain but the last. */
  function Cleaned(name: string): string {
    TrimUnderscore(SqueezeUnderscores(SqueezeSpaces(KeepAllowed(StripMarks(name)))))
  }

  /** The whole chain, for a name whose accents `normalize('NFD')` has already split off. */
  function Sanitize(name: string, limit: nat): string {
    Truncate(Cleaned(name), limit)
  }

  const EmployeeLimit: nat := 50
  const TemplateLimit: nat := 30

  /** `sanitized || fallback`. */
  function FinalName(name: string, limit: nat, fallback: string): string {
    var s := Sanitize(name, limit);
    if s != "" then s else fallback
  }

  /** `${finalEmployeeName}_${finalTemplateName}_${Date.now()}.pdf`. */
  function FileName(employeeName: string, templateName: string, now: nat): string {
    FinalName(employeeName, EmployeeLimit, "funcionario") + "_"
    + FinalName(templateName, TemplateLimit, "documento") + "_" + NatToString(now) + ".pdf"
  }

  // ---------------------------------------------------------------------------------------
  // What each step guarantees

  /** The spaces become `_`, which the filter before has removed from the text. */
  lemma {:induction false} SqueezedChars(s: string)
    requires forall i :: 0 <= i < |s| ==> Allowed(s[i])
    ensures AllWordChars(SqueezeSpaces(s))
    decreases |s|
  {
    if s != [] {
      var t := if IsSpace(s[0]) then DropLeadingSpaces(s[1..]) else s[1..];
      var head := if IsSpace(s[0]) then "_" else [s[0]];
      AllowedSuffix(s, t);
      SqueezedChars(t);
      assert SqueezeSpaces(s) == head + SqueezeSpaces(t);
      WordCharsAppend(head, SqueezeSpaces(t));
    }
  }

  lemma AllowedSuffix(s: string, t: string)
    requires forall i :: 0 <= i < |s| ==> Allowed(s[i])
    requires |t| < |s| && t == s[|s| - |t|..]
    ensures forall i :: 0 <= i < |t| ==> Allowed(t[i])
  {
    assert forall i :: 0 <= i < |t| ==> t[i] == s[|s| - |t| + i];
  }

  lemma WordCharsAppend(a: string, b: string)
    requires AllWordChars(a) && AllWordChars(b)
    ensures AllWordChars(a + b)
  {
  }

  /** The first character of the squeezed text is `_` exactly when the text starts with white space. */
  lemma SqueezedHead(s: string)
    requires s != [] && s[0] != '_'
    ensures SqueezeSpaces(s) != [] && (SqueezeSpaces(s)[0] == '_' <==> IsSpace(s[0]))
  {
  }

  /** From a text without `_`, squeezing the white space leaves no `__`. */
  lemma {:induction false} SqueezedNoDouble(s: string)
    requires forall i :: 0 <= i < |s| ==> s[i] != '_'
    ensures NoDoubleUnderscore(SqueezeSpaces(s))
    decreases |s|
  {
    if s != [] {
      var r := SqueezeSpaces(s);
      if IsSpace(s[0]) {
        var t := DropLeadingSpaces(s[1..]);
        assert forall i :: 0 <= i < |t| ==> t[i] == s[1..][|s[1..]| - |t| + i];
        SqueezedNoDouble(t);
        if t != [] {
          SqueezedHead(t);
        }
        assert r == "_" + SqueezeSpaces(t);
      } else {
        assert forall i :: 0 <= i < |s[1..]| ==> s[1..][i] == s[i + 1];
        SqueezedNoDouble(s[1..]);
        assert r == [s[0]] + SqueezeSpaces(s[1..]);
      }
    }
  }

  /** `replace(/_+/g, '_')` changes nothing in a text without `__`. */
  lemma {:induction false} SqueezeUnderscoresOfSingle(s: string)
    requires NoDoubleUnderscore(s)
    ensures SqueezeUnderscores(s) == s
    decreases |s|
  {
    if s != [] {
      var t := s[1..];
      SingleTail(s);
      SqueezeUnderscoresOfSingle(t);
      if s[0] == '_' {
        assert DropLeadingUnderscores(t) == t;
        assert SqueezeUnderscores(s) == "_" + SqueezeUnderscores(DropLeadingUnderscores(t));
        assert s == "_" + t;
      } else {
        assert SqueezeUnderscores(s) == [s[0]] + SqueezeUnderscores(t);
        assert s == [s[0]] + t;
      }
    }
  }

  /** The tail of a text without `__` has none either, and after a `_` it starts with another character. */
  lemma SingleTail(s: string)
    requires s != [] && NoDoubleUnderscore(s)
    ensures NoDoubleUnderscore(s[1..])
    ensures s[0] == '_' ==> s[1..] == [] || s[1..][0] != '_'
  {
    var t := s[1..];
    forall i | 0 <= i < |t| - 1 ensures !(t[i] == '_' && t[i + 1] == '_') {
      assert t[i] == s[i + 1] && t[i + 1] == s[i + 2];
    }
    if s[0] == '_' && t != [] {
      assert t[0] == s[1];
    }
  }

  /** The untruncated name, and what it is made of. */
  lemma CleanedShape(name: string)
    ensures AllWordChars(Cleaned(name)) && NoDoubleUnderscore(Cleaned(name))
    ensures Cleaned(name) == [] || (Cleaned(name)[0] != '_' && Cleaned(name)[|Cleaned(name)| - 1] != '_')
  {
    var kept := KeepAllowed(StripMarks(name));
    assert forall i :: 0 <= i < |kept| ==> Allowed(kept[i]);
    SqueezedChars(kept);
    SqueezedNoDouble(kept);
    var squeezed := SqueezeSpaces(kept);
    SqueezeUnderscoresOfSingle(squeezed);
    TrimmedShape(squeezed);
  }

  lemma TrimmedShape(s: string)
    requires AllWordChars(s) && NoDoubleUnderscore(s)
    ensures AllWordChars(TrimUnderscore(s)) && NoDoubleUnderscore(TrimUnderscore(s))
    ensures TrimUnderscore(s) == [] || (TrimUnderscore(s)[0] != '_' && TrimUnderscore(s)[|TrimUnderscore(s)| - 1] != '_')
  {
    var a := if s != [] && s[0] == '_' then 1 else 0;
    var front := s[a..];
    var b := if front != [] && front[|front| - 1] == '_' then |s| - 1 else |s|;
    assert TrimUnderscore(s) == s[a..b];
    SliceShape(s, a, b);
    if a < b {
      assert s[a..b][0] == s[a];
      assert s[a..b][b - a - 1] == s[b - 1];
      if a == 1 { assert s[1] != '_'; }
      if b == |s| - 1 { assert s[b - 1] != '_'; }
    }
  }

  /** A slice of a text made of word characters without `__` is one too. */
  lemma SliceShape(s: string, a: int, b: int)
    requires 0 <= a <= b <= |s|
    requires AllWordChars(s) && NoDoubleUnderscore(s)
    ensures AllWordChars(s[a..b]) && NoDoubleUnderscore(s[a..b])
  {
    var t := s[a..b];
    assert forall i :: 0 <= i < |t| ==> t[i] == s[a + i];
  }

  /**
   * The sanitised name: ASCII letters, digits and `_`, never `__`, never a `_` in front, and
   * no longer than the limit. The `_` at the back is trimmed before the cut, so only an
   * untruncated name is sure not to end in `_`.
   */
  lemma SanitizedShape(name: string, limit: nat)
    ensures AllWordChars(Sanitize(name, limit)) && NoDoubleUnderscore(Sanitize(name, limit))
    ensures Sanitize(name, limit) == [] || Sanitize(name, limit)[0] != '_'
    ensures |Sanitize(name, limit)| <= limit
    ensures |Cleaned(name)| <= limit ==>
              Sanitize(name, limit) == [] || Sanitize(name, limit)[|Sanitize(name, limit)| - 1] != '_'
  {
    CleanedShape(name);
    var c, r := Cleaned(name), Sanitize(name, limit);
    assert forall i :: 0 <= i < |r| ==> r[i] == c[i];
  }

  /** A cut can keep the `_` of a space: "a b" cut at 2 is "a_". */
  lemma TruncatedNameMayEndInUnderscore()
    ensures Sanitize("a b", 2) == "a_"
  {
    CleanedSample();
    assert "a_b"[..2] == "a_";
  }

  lemma CleanedSample()
    ensures Cleaned("a b") == "a_b"
  {
    var kept := KeepAllowed(StripMarks("a b"));
    FilteredSample();
    var spaced := SqueezeSpaces(kept);
    SqueezeOfSample();
    var squeezed := SqueezeUnderscores(spaced);
    SampleSqueezed();
    assert squeezed == "a_b";
    SampleTrimmed();
  }

  lemma SampleSqueezed()
    ensures SqueezeUnderscores("a_b") == "a_b"
  {
    assert NoDoubleUnderscore("a_b") by {
      assert "a_b"[0] == 'a' && "a_b"[2] == 'b';
    }
    SqueezeUnderscoresOfSingle("a_b");
  }

  lemma SampleTrimmed()
    ensures TrimUnderscore("a_b") == "a_b"
  {
    assert "a_b"[0] == 'a' && "a_b"[2] == 'b';
  }

  lemma FilteredSample()
    ensures KeepAllowed(StripMarks("a b")) == "a b"
  {
    FilterAll("a b", NotMark);
    FilterAll("a b", Allowed);
  }

  lemma SqueezeOfSample()
    ensures SqueezeSpaces("a b") == "a_b"
  {
    assert DropLeadingSpaces("b") == "b";
    assert SqueezeSpaces("b") == "b";
    assert " b"[1..] == "b";
    assert SqueezeSpaces(" b") == "_b";
    assert "a b"[1..] == " b";
  }

  /** An empty sanitised name is replaced by the fallback, so neither part of the file name is empty. */
  lemma FinalNameNonEmpty(name: string, limit: nat, fallback: string)
    requires fallback != ""
    ensures FinalName(name, limit, fallback) != ""
    ensures Sanitize(name, limit) == "" ==> FinalName(name, limit, fallback) == fallback
    ensures Sanitize(name, limit) != "" ==> FinalName(name, limit, fallback) == Sanitize(name, limit)
  {
  }

  /**
   * The file name: the employee's name and `_` in front, then the template's name and `_`,
   * then the decimal digits of the timestamp, which read back as the timestamp, and ".pdf".
   */
  lemma FileNameShape(employeeName: string, templateName: string, now: nat)
    ensures var f := FileName(employeeName, templateName, now);
            var e := FinalName(employeeName, EmployeeLimit, "funcionario");
            var n := |NatToString(now)|;
            |f| >= |e| + 1 + n + 4 && f[..|e| + 1] == e + "_" && f[|f| - 4..] == ".pdf"
            && f[|e| + 1..|f| - 4 - n] == FinalName(templateName, TemplateLimit, "documento") + "_"
            && f[|f| - 4 - n..|f| - 4] == NatToString(now)
            && DigitsValue(f[|f| - 4 - n..|f| - 4]) == now
  {
    JoinedName(FinalName(employeeName, EmployeeLimit, "funcionario"), FinalName(templateName, TemplateLimit, "documento"), now);
  }

  /** `FileName` over its two final names. */
  lemma JoinedName(e: string, t: string, now: nat)
    ensures var f := e + "_" + t + "_" + NatToString(now) + ".pdf";
            var n := |NatToString(now)|;
            |f| >= |e| + 1 + n + 4 && f[..|e| + 1] == e + "_" && f[|f| - 4..] == ".pdf"
            && f[|e| + 1..|f| - 4 - n] == t + "_"
            && f[|f| - 4 - n..|f| - 4] == NatToString(now)
            && DigitsValue(f[|f| - 4 - n..|f| - 4]) == now
  {
    FileNameParts(e, t, NatToString(now));
    NatToStringRoundTrip(now);
  }

  /** The four parts of `e_t_d.pdf` at their places. */
  lemma FileNameParts(e: string, t: string, d: string)
    ensures var f := e + "_" + t + "_" + d + ".pdf";
            |f| == |e| + 1 + |t| + 1 + |d| + 4 && f[..|e| + 1] == e + "_"
            && f[|e| + 1..|f| - 4 - |d|] == t + "_"
            && f[|f| - 4 - |d|..|f| - 4] == d && f[|f| - 4..] == ".pdf"
  {
    PartsOf(e + "_", t + "_", d, ".pdf");
    assert e + "_" + t + "_" + d + ".pdf" == (e + "_") + (t + "_") + d + ".pdf";
  }

  /** The parts of `a + b + c + d` at their places. */
  lemma PartsOf(a: string, b: string, c: string, d: string)
    ensures var s := a + b + c + d;
            s[..|a|] == a && s[|a|..|a| + |b|] == b && s[|s| - |d|..] == d && s[|a| + |b|..|a| + |b| + |c|] == c
  {
  }

  // ---------------------------------------------------------------------------------------
  // The fields of the document

  /** The labels `formatFieldName` knows. */
  const FieldNames: seq<(string, string)> := [
    ("nome", "Nome"), ("email", "E-mail"), ("telefone", "Telefone"), ("cargo", "Cargo"),
    ("departamento", "Departamento"), ("data_admissao", "Data de Admissão"), ("salario", "Salário"),
    ("endereco", "Endereço"), ("cidade", "Cidade"), ("estado", "Estado"), ("cep", "CEP"),
    ("contato_emergencia", "Contato de Emergência"), ("telefone_emergencia", "Telefone de Emergência")]

  /** `key.charAt(0).toUpperCase() + key.slice(1)`. */
  function Capitalize(key: string): string {
    if key == "" then "" else [UpperChar(key[0])] + key[1..]
  }

  /** `table[key] || Capitalize(key)`. */
  function LabelIn(table: seq<(string, string)>, key: string): string {
    match Lookup(table, key)
    case Some(text) => if text != "" then text else Capitalize(key)
    case None => Capitalize(key)
  }

  /** `formatFieldName(key)`. */
  function FormatFieldName(key: string): string {
    LabelIn(FieldNames, key)
  }

  /** In a table without empty labels, a listed key gets its label and any other key is capitalised. */
  lemma LabelInTable(table: seq<(string, string)>, key: string)
    requires forall i :: 0 <= i < |table| ==> table[i].1 != ""
    ensures (forall i :: 0 <= i < |table| ==> table[i].0 != key) ==> LabelIn(table, key) == Capitalize(key)
    ensures (exists i :: 0 <= i < |table| && table[i].0 == key) ==>
              exists i :: 0 <= i < |table| && table[i] == (key, LabelIn(table, key))
  {
  }

  /** None of the labels `formatFieldName` knows is empty. */
  lemma FieldNamesLabelled()
    ensures forall i :: 0 <= i < |FieldNames| ==> FieldNames[i].1 != ""
  {
  }

  /** A known key gets its label; any other key is itself with its first letter upper-cased. */
  lemma FormatFieldNameOfKey(key: string)
    ensures (forall i :: 0 <= i < |FieldNames| ==> FieldNames[i].0 != key) ==> FormatFieldName(key) == Capitalize(key)
    ensures (exists i :: 0 <= i < |FieldNames| && FieldNames[i].0 == key) ==>
              exists i :: 0 <= i < |FieldNames| && FieldNames[i] == (key, FormatFieldName(key))
  {
    FieldNamesLabelled();
    LabelInTable(FieldNames, key);
  }

  /** Capitalising changes only the case of the first letter, and "" stays "". */
  lemma CapitalizeKeepsKey(key: string)
    ensures |Capitalize(key)| == |key|
    ensures Lower(Capitalize(key)) == Lower(key)
    ensures key != "" ==> Capitalize(key)[1..] == key[1..]
  {
    if key != "" {
      var c := Capitalize(key);
      assert LowerChar(UpperChar(key[0])) == LowerChar(key[0]);
      assert forall i :: 1 <= i < |key| ==> c[i] == key[i];
    }
  }

  const NotInformed: string := "Não informado"

  /** `${value || 'Não informado'}`; `text` is `String(value)` for a value that is not a string. */
  function ShownValue(v: Value, text: Value -> string): string {
    if !Truthy(v) then NotInformed
    else match v
      case Str(s) => s
      case _ => text(v)
  }

  /** A falsy value is shown as "Não informado"; a non-empty string as itself. */
  lemma ShownValueFallback(v: Value, text: Value -> string)
    ensures !Truthy(v) ==> ShownValue(v, text) == NotInformed
    ensures v.Str? && v.s != "" ==> ShownValue(v, text) == v.s
    ensures v.Str? ==> ShownValue(v, text) != ""
  {
  }

  /** One field of the document's content: its label and the text of its value. */
  datatype ShownField = ShownField(caption: string, value: string)

  /** `Object.entries(data).map(([key, value]) => ...)`: every entry, in order. */
  function ShownFields(entries: seq<(string, Value)>, text: Value -> string): seq<ShownField> {
    seq(|entries|, i requires 0 <= i < |entries| =>
      ShownField(FormatFieldName(entries[i].0), ShownValue(entries[i].1, text)))
  }

  /** Every entry is shown, even a falsy one, under its key's label. */
  lemma EveryEntryShown(entries: seq<(string, Value)>, text: Value -> string, i: int)
    requires 0 <= i < |entries|
    ensures |ShownFields(entries, text)| == |entries|
    ensures ShownFields(entries, text)[i].caption == FormatFieldName(entries[i].0)
    ensures !Truthy(entries[i].1) ==> ShownFields(entries, text)[i].value == NotInformed
  {
  }
}

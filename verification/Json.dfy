/** `ExtractJsonValue`, which reads one field of a compactly printed flat JSON object by text search. */
module Json {
  import opened Wrappers
  import opened Text

  /** `s.substr(from, end - from)`, up to the end when `end` is npos. */
  function Slice(s: string, from: nat, end: Option<nat>): string
    requires from <= |s| && (end.Some? ==> from <= end.value <= |s|)
  {
    if end.Some? then s[from..end.value] else s[from..]
  }

  function Quoted(s: string): (q: string)
    ensures |q| == |s| + 2
  {
    "\"" + s + "\""
  }

  function ExtractJsonValue(json: string, key: string): string
  {
    var asString := Find(json, Quoted(key) + ":\"");
    if asString.Some? then
      var start := asString.value + |key| + 4;
      Slice(json, start, FindFrom(json, "\"", start))
    else
      var asOther := Find(json, Quoted(key) + ":");
      if asOther.None? then ""
      else
        var start := asOther.value + |key| + 3;
        Slice(json, start, FindAnyFrom(json, ",}", start))
  }

  /** A field holds a string, or a number or literal whose text is `raw`. */
  datatype Value = Text(text: string) | Raw(raw: string)

  datatype Field = Field(key: string, value: Value)
  {
    /** Printed without escapes. */
    predicate Plain() {
      && '"' !in key
      && match value
         case Text(text) => '"' !in text
         case Raw(raw) => '"' !in raw && ',' !in raw && '}' !in raw
    }
  }

  function PrintValue(v: Value): string
  {
    match v
    case Text(text) => Quoted(text)
    case Raw(raw) => raw
  }

  function PrintField(f: Field): string { Quoted(f.key) + ":" + PrintValue(f.value) }

  /** The object after its opening brace. */
  function PrintRest(fields: seq<Field>): string
  {
    if fields == [] then "}"
    else PrintField(fields[0]) + if |fields| == 1 then "}" else "," + PrintRest(fields[1..])
  }

  function Print(fields: seq<Field>): string { "{" + PrintRest(fields) }

  /** The first string field named `key`, else the first other field named `key`, else nothing. */
  function LookUpText(fields: seq<Field>, key: string): Option<string>
  {
    if fields == [] then None
    else if fields[0].key == key && fields[0].value.Text? then Some(fields[0].value.text)
    else LookUpText(fields[1..], key)
  }

  function LookUpRaw(fields: seq<Field>, key: string): Option<string>
  {
    if fields == [] then None
    else if fields[0].key == key && fields[0].value.Raw? then Some(fields[0].value.raw)
    else LookUpRaw(fields[1..], key)
  }

  function LookUp(fields: seq<Field>, key: string): string
  {
    match LookUpText(fields, key)
    case Some(text) => text
    case None => if LookUpRaw(fields, key).Some? then LookUpRaw(fields, key).value else ""
  }

  ghost predicate AllPlain(fields: seq<Field>)
  {
    forall f :: f in fields ==> f.Plain()
  }

  // Searching text that is glued together.

  /** What follows the first occurrence of `pat`. */
  function After(s: string, pat: string): Option<string>
  {
    var pos := Find(s, pat);
    if pos.Some? then Some(s[pos.value + |pat|..]) else None
  }

  lemma AtShift(pre: string, t: string, pat: string, i: nat)
    ensures At(pre + t, pat, |pre| + i) <==> At(t, pat, i)
  {
  }

  /** Text in which no occurrence starts can be cut off the front. */
  lemma AfterSkips(pre: string, t: string, pat: string)
    requires forall j: nat :: j < |pre| ==> !At(pre + t, pat, j)
    ensures After(pre + t, pat) == After(t, pat)
  {
    var s, f, g := pre + t, Find(pre + t, pat), Find(t, pat);
    if g.Some? {
      AtShift(pre, t, pat, g.value);
      forall j: nat | j < |pre| + g.value ensures !At(s, pat, j) {
        if j >= |pre| {
          AtShift(pre, t, pat, j - |pre|);
        }
      }
      FirstIsFound(s, pat, 0, |pre| + g.value);
      assert s[|pre| + g.value + |pat|..] == t[g.value + |pat|..];
    } else if f.Some? {
      AtShift(pre, t, pat, f.value - |pre|);
      assert false;
    }
  }

  lemma AfterPrefix(pat: string, t: string)
    ensures After(pat + t, pat) == Some(t)
  {
  }

  // Where `"key":` can occur in a printed object.

  /** `key` is not one of the texts that can stand between the closing quote of one string and the opening
      quote of the next: a colon, a comma, or a colon, an unquoted value and a comma. */
  ghost predicate Searchable(key: string)
  {
    key != ":" && key != "," && !IsRawGap(key)
  }

  ghost predicate IsRawGap(key: string)
  {
    && |key| >= 2 && key[0] == ':' && key[|key| - 1] == ','
    && forall i :: 1 <= i < |key| - 1 ==> key[i] !in ",}"
  }

  /** What follows the first field. */
  function Tail(fields: seq<Field>): string
    requires fields != []
  {
    if |fields| == 1 then "}" else "," + PrintRest(fields[1..])
  }

  /** A quoted text at position `j` is read to its closing quote. */
  lemma QuotedAt(s: string, j: nat, a: string, b: string)
    requires '"' !in a && '"' !in b && At(s, Quoted(a), j) && At(s, Quoted(b), j)
    ensures a == b
  {
    var x, y := s[j + 1 + |a| + 1..], s[j + 1 + |b| + 1..];
    assert s[j + 1..] == a + ['"'] + x by {
      assert s[j..j + |Quoted(a)|] == Quoted(a);
      assert s[j + 1..] == s[j..j + |Quoted(a)|][1..] + x;
    }
    assert s[j + 1..] == b + ['"'] + y by {
      assert s[j..j + |Quoted(b)|] == Quoted(b);
      assert s[j + 1..] == s[j..j + |Quoted(b)|][1..] + y;
    }
    SplitAtSeparator(a, b, '"', x, y);
  }

  lemma AtKey(s: string, key: string, j: nat)
    requires At(s, Quoted(key) + ":", j)
    ensures j + |key| + 3 <= |s| && At(s, Quoted(key), j)
    ensures s[j] == '"' == s[j + |key| + 1] && s[j + |key| + 2] == ':'
    ensures s[j + 1] == if key == "" then '"' else key[0]
  {
    var pat := Quoted(key) + ":";
    assert s[j..j + |pat|][0] == pat[0] && s[j..j + |pat|][|key| + 1] == pat[|key| + 1];
    assert s[j..j + |pat|][1] == pat[1] && s[j..j + |pat|][|key| + 2] == pat[|key| + 2];
    assert s[j..j + |key| + 2] == s[j..j + |pat|][..|key| + 2] == pat[..|key| + 2] == Quoted(key);
  }

  lemma FieldLayout(f: Field, tail: string)
    requires tail != ""
    ensures var s, n := PrintField(f) + tail, |f.key|;
            && At(s, Quoted(f.key), 0) && s[n + 2] == ':' && s[|PrintField(f)|] == tail[0]
            && (forall i :: 1 <= i <= n ==> s[i] == f.key[i - 1])
            && (forall i :: n + 3 <= i < |PrintField(f)| ==> s[i] == PrintValue(f.value)[i - n - 3])
            && (f.value.Text? ==> At(s, Quoted(f.value.text), n + 3))
  {
  }

  /** What can follow a printed field. */
  predicate IsTail(tail: string)
  {
    tail == "}" || (|tail| >= 2 && tail[0] == ',' && tail[1] == '"')
  }

  /** Up to the separator after the first field, `"key":` can start only at one of its quotes. */
  lemma KeyStartsAtQuote(f: Field, tail: string, key: string, j: nat)
    requires f.Plain() && IsTail(tail) && j <= |PrintField(f)|
    requires At(PrintField(f) + tail, Quoted(key) + ":", j)
    ensures j == 0 || j == |f.key| + 1 || (f.value.Text? && (j == |f.key| + 3 || j == |PrintField(f)| - 1))
  {
    var s, n := PrintField(f) + tail, |f.key|;
    FieldLayout(f, tail);
    AtKey(s, key, j);
    hide At;
    if n + 3 <= j < |PrintField(f)| {
      assert s[j] == PrintValue(f.value)[j - n - 3];
    }
  }

  /** It starts at the front only when the first field has that key, and not at all at a string value. */
  lemma KeyAtText(f: Field, tail: string, key: string, j: nat)
    requires f.Plain() && '"' !in key && IsTail(tail) && At(PrintField(f) + tail, Quoted(key) + ":", j)
    ensures j == 0 ==> f.key == key
    ensures f.value.Text? ==> j != |f.key| + 3
  {
    var s := PrintField(f) + tail;
    FieldLayout(f, tail);
    AtKey(s, key, j);
    hide At;
    if j == 0 {
      QuotedAt(s, 0, f.key, key);
    } else if f.value.Text? && j == |f.key| + 3 {
      QuotedAt(s, j, f.value.text, key);
    }
  }

  /** Up to the separator after the first field, `"key":` can start only at the front, and does so exactly
      when the first field has that key. */
  lemma KeyStartsInFront(f: Field, tail: string, key: string, j: nat)
    requires f.Plain() && '"' !in key && Searchable(key) && IsTail(tail)
    requires At(PrintField(f) + tail, Quoted(key) + ":", j) && j <= |PrintField(f)|
    ensures j == 0 && f.key == key
  {
    KeyStartsAtQuote(f, tail, key, j);
    KeyAtText(f, tail, key, j);
    hide At, PrintField, Searchable;
    if j == |f.key| + 1 {
      GapAfterKey(f, tail, key);
    } else if j != 0 {
      GapAfterText(f, tail, key);
    }
  }

  lemma AtGlued(pre: string, mid: string, post: string)
    ensures At(pre + mid + post, mid, |pre|)
  {
  }

  lemma NoQuoteAfterRaw(f: Field)
    requires f.Plain() && f.value.Raw?
    ensures var s := PrintField(f) + "}"; forall i :: |f.key| + 1 < i < |s| ==> s[i] != '"'
  {
  }

  lemma GapAfterKey(f: Field, tail: string, key: string)
    requires f.Plain() && '"' !in key && IsTail(tail)
    requires At(PrintField(f) + tail, Quoted(key) + ":", |f.key| + 1)
    ensures !Searchable(key)
  {
    AtKey(PrintField(f) + tail, key, |f.key| + 1);
    if f.value.Text? {
      TextGapAfterKey(f, tail, key);
    } else if tail == "}" {
      NoQuoteAfterRaw(f);
    } else {
      RawGapAfterKey(f, tail, key);
    }
  }

  lemma TextGapAfterKey(f: Field, tail: string, key: string)
    requires f.value.Text? && '"' !in key && At(PrintField(f) + tail, Quoted(key), |f.key| + 1)
    ensures key == ":"
  {
    var s, pre, post := PrintField(f) + tail, "\"" + f.key, f.value.text + "\"" + tail;
    AtGlued(pre, Quoted(":"), post);
    assert s == pre + Quoted(":") + post;
    QuotedAt(s, |f.key| + 1, ":", key);
  }

  lemma RawGapAfterKey(f: Field, tail: string, key: string)
    requires f.Plain() && f.value.Raw? && '"' !in key && |tail| >= 2 && tail[0] == ',' && tail[1] == '"'
    requires At(PrintField(f) + tail, Quoted(key), |f.key| + 1)
    ensures IsRawGap(key)
  {
    var s, pre, gap := PrintField(f) + tail, "\"" + f.key, ":" + f.value.raw + ",";
    AtGlued(pre, Quoted(gap), tail[2..]);
    assert s == pre + Quoted(gap) + tail[2..];
    QuotedAt(s, |f.key| + 1, gap, key);
  }

  lemma GapAfterText(f: Field, tail: string, key: string)
    requires f.Plain() && f.value.Text? && '"' !in key && IsTail(tail)
    requires At(PrintField(f) + tail, Quoted(key) + ":", |PrintField(f)| - 1)
    ensures key == ","
  {
    var s, j := PrintField(f) + tail, |PrintField(f)| - 1;
    AtKey(s, key, j);
    if |tail| >= 2 {
      assert s[j..j + 3] == Quoted(",");
      QuotedAt(s, j, ",", key);
    }
  }

  lemma SkipField(f: Field, tail: string, key: string, pat: string)
    requires f.Plain() && '"' !in key && Searchable(key) && Quoted(key) + ":" <= pat
    requires IsTail(tail)
    requires !At(PrintField(f) + tail, pat, 0)
    ensures After(PrintField(f) + tail, pat) == After(tail[1..], pat)
  {
    var s, pre := PrintField(f) + tail, PrintField(f) + [tail[0]];
    assert s == pre + tail[1..];
    forall j: nat | j < |pre| ensures !At(s, pat, j) {
      if At(s, pat, j) {
        AtPrefix(s, Quoted(key) + ":", pat, j);
        KeyStartsInFront(f, tail, key, j);
      }
    }
    AfterSkips(pre, tail[1..], pat);
  }

  lemma AtPrefix(s: string, front: string, pat: string, j: nat)
    requires front <= pat && At(s, pat, j)
    ensures At(s, front, j)
  {
  }

  lemma NothingInShort(s: string, key: string, pat: string)
    requires |s| < 3 && Quoted(key) + ":" <= pat
    ensures After(s, pat) == None
  {
  }

  lemma TailIsTail(fields: seq<Field>)
    requires fields != []
    ensures IsTail(Tail(fields))
  {
  }

  lemma RawInFront(f: Field, tail: string)
    requires f.value.Raw?
    ensures After(PrintField(f) + tail, Quoted(f.key) + ":") == Some(f.value.raw + tail)
  {
    var pat, rest := Quoted(f.key) + ":", f.value.raw + tail;
    AfterPrefix(pat, rest);
    assert PrintField(f) + tail == pat + rest;
  }

  lemma TextInFront(f: Field, tail: string)
    requires f.value.Text?
    ensures After(PrintField(f) + tail, Quoted(f.key) + ":\"") == Some(f.value.text + "\"" + tail)
  {
    var pat, rest := Quoted(f.key) + ":\"", f.value.text + "\"" + tail;
    AfterPrefix(pat, rest);
    assert PrintField(f) + tail == pat + rest;
  }

  lemma {:induction false} TextFound(fields: seq<Field>, key: string)
    requires AllPlain(fields) && '"' !in key && Searchable(key)
    ensures match LookUpText(fields, key)
            case None => After(PrintRest(fields), Quoted(key) + ":\"") == None
            case Some(text) =>
              var rest := After(PrintRest(fields), Quoted(key) + ":\"");
              rest.Some? && text + "\"" <= rest.value
  {
    var pat := Quoted(key) + ":\"";
    if fields == [] {
      NothingInShort("}", key, pat);
    } else {
      var f, tail := fields[0], Tail(fields);
      assert f in fields;
      TailIsTail(fields);
      if f.key == key && f.value.Text? {
        TextInFront(f, tail);
      } else {
        TextNotInFront(f, tail, key);
        SkipField(f, tail, key, pat);
        TextFound(fields[1..], key);
        NothingInShort("", key, pat);
      }
    }
  }

  lemma QuoteAfterColon(s: string, key: string)
    requires At(s, Quoted(key) + ":\"", 0)
    ensures s[|key| + 3] == '"'
  {
  }

  lemma TextNotInFront(f: Field, tail: string, key: string)
    requires f.Plain() && '"' !in key && Searchable(key) && !(f.key == key && f.value.Text?)
    requires IsTail(tail)
    ensures !At(PrintField(f) + tail, Quoted(key) + ":\"", 0)
  {
    var s, pat := PrintField(f) + tail, Quoted(key) + ":\"";
    if At(s, pat, 0) {
      AtPrefix(s, Quoted(key) + ":", pat, 0);
      KeyStartsInFront(f, tail, key, 0);
      FieldLayout(f, tail);
      QuoteAfterColon(s, key);
    }
  }

  lemma {:induction false} RawFound(fields: seq<Field>, key: string)
    requires AllPlain(fields) && '"' !in key && Searchable(key) && LookUpText(fields, key) == None
    ensures match LookUpRaw(fields, key)
            case None => After(PrintRest(fields), Quoted(key) + ":") == None
            case Some(raw) =>
              var rest := After(PrintRest(fields), Quoted(key) + ":");
              rest.Some? && raw < rest.value && rest.value[|raw|] in ",}" && forall c :: c in raw ==> c !in ",}"
  {
    var pat := Quoted(key) + ":";
    if fields == [] {
      NothingInShort("}", key, pat);
    } else {
      var f, tail := fields[0], Tail(fields);
      assert f in fields;
      TailIsTail(fields);
      if f.key == key {
        RawInFront(f, tail);
      } else {
        if At(PrintField(f) + tail, pat, 0) {
          KeyStartsInFront(f, tail, key, 0);
        }
        SkipField(f, tail, key, pat);
        RawFound(fields[1..], key);
        NothingInShort("", key, pat);
      }
    }
  }

  lemma BraceSkipped(rest: string, key: string, pat: string)
    requires Quoted(key) + ":" <= pat
    ensures After("{" + rest, pat) == After(rest, pat)
  {
    assert ("{" + rest)[0] != '"' == pat[0];
    if 1 + |rest| >= |pat| {
      assert ("{" + rest)[0..|pat|][0] == '{';
    }
    AfterSkips("{", rest, pat);
  }

  lemma ReadToQuote(s: string, start: nat, text: string)
    requires start <= |s| && '"' !in text && text + "\"" <= s[start..]
    ensures Slice(s, start, FindFrom(s, "\"", start)) == text
  {
    var end := start + |text|;
    assert s[start..][|text|] == '"' && s[start..][..|text|] == text;
    assert At(s, "\"", end);
    forall j: nat | start <= j < end ensures !At(s, "\"", j) {
      assert s[j..j + 1][0] == text[j - start];
    }
    FirstIsFound(s, "\"", start, end);
  }

  /** Extraction undoes printing, wherever the field stands and whatever the other fields hold: it returns
      the value of the first string field with the key, or else of the first other field, or else "". */
  lemma ExtractUndoesPrint(fields: seq<Field>, key: string)
    requires AllPlain(fields) && '"' !in key && Searchable(key)
    ensures ExtractJsonValue(Print(fields), key) == LookUp(fields, key)
  {
    hide After, PrintRest, ExtractJsonValue;
    var json, asText, asRaw := Print(fields), Quoted(key) + ":\"", Quoted(key) + ":";
    TextFound(fields, key);
    BraceSkipped(PrintRest(fields), key, asText);
    match LookUpText(fields, key)
    case Some(text) =>
      LookedUpText(fields, key);
      ExtractText(json, key, text);
    case None =>
      RawFound(fields, key);
      BraceSkipped(PrintRest(fields), key, asRaw);
      ExtractRaw(json, key, LookUpRaw(fields, key));
  }

  lemma ExtractText(json: string, key: string, text: string)
    requires After(json, Quoted(key) + ":\"").Some? && '"' !in text
    requires text + "\"" <= After(json, Quoted(key) + ":\"").value
    ensures ExtractJsonValue(json, key) == text
  {
    ReadToQuote(json, Find(json, Quoted(key) + ":\"").value + |key| + 4, text);
  }

  lemma ExtractRaw(json: string, key: string, found: Option<string>)
    requires After(json, Quoted(key) + ":\"") == None
    requires var rest := After(json, Quoted(key) + ":");
             match found
             case None => rest == None
             case Some(raw) =>
               rest.Some? && raw < rest.value && rest.value[|raw|] in ",}" && forall c :: c in raw ==> c !in ",}"
    ensures ExtractJsonValue(json, key) == if found.Some? then found.value else ""
  {
  }

  lemma {:induction false} LookedUpText(fields: seq<Field>, key: string)
    requires AllPlain(fields) && LookUpText(fields, key).Some?
    ensures '"' !in LookUpText(fields, key).value
  {
    assert fields[0] in fields;
    if !(fields[0].key == key && fields[0].value.Text?) {
      LookedUpText(fields[1..], key);
    }
  }

  /** With distinct keys every field is read back. */
  lemma EveryFieldIsRead(fields: seq<Field>, i: nat)
    requires AllPlain(fields) && i < |fields| && Searchable(fields[i].key)
    requires forall j, k :: 0 <= j < k < |fields| ==> fields[j].key != fields[k].key
    ensures ExtractJsonValue(Print(fields), fields[i].key)
            == if fields[i].value.Text? then fields[i].value.text else fields[i].value.raw
  {
    assert fields[i] in fields;
    ExtractUndoesPrint(fields, fields[i].key);
    LookUpAt(fields, i);
  }

  lemma {:induction false} LookUpAt(fields: seq<Field>, i: nat)
    requires i < |fields|
    requires forall j :: 0 <= j < |fields| && j != i ==> fields[j].key != fields[i].key
    ensures LookUpText(fields, fields[i].key) == if fields[i].value.Text? then Some(fields[i].value.text) else None
    ensures LookUpRaw(fields, fields[i].key) == if fields[i].value.Raw? then Some(fields[i].value.raw) else None
  {
    if i > 0 {
      LookUpAt(fields[1..], i - 1);
    } else {
      LookUpNone(fields[1..], fields[0].key);
    }
  }

  lemma {:induction false} LookUpNone(fields: seq<Field>, key: string)
    requires forall j :: 0 <= j < |fields| ==> fields[j].key != key
    ensures LookUpText(fields, key) == None && LookUpRaw(fields, key) == None
  {
    if fields != [] {
      LookUpNone(fields[1..], key);
    }
  }

  // The condition on the key is exact.

  lemma FirstAtIsExtracted(json: string, pre: string, key: string, rest: string, text: string)
    requires json == pre + (Quoted(key) + ":\"") + rest && text + "\"" <= rest && '"' !in text
    requires forall j: nat :: j < |pre| ==> !At(json, Quoted(key) + ":\"", j)
    ensures ExtractJsonValue(json, key) == text
  {
    var pat := Quoted(key) + ":\"";
    assert json == pre + (pat + rest);
    AfterSkips(pre, pat + rest, pat);
    AfterPrefix(pat, rest);
    ExtractText(json, key, text);
  }

  lemma ColonMisleads()
    ensures ExtractJsonValue(Print([Field("", Text(":"))]), ":") != ""
  {
    var json, pat := "{\"\":\":\"}", "\":\":\"";
    assert Print([Field("", Text(":"))]) == json;
    assert Quoted(":") + ":\"" == pat;
    forall j: nat | j < 2 ensures !At(json, pat, j) {
      assert json[j..j + 5][1] == json[j + 1] != ':';
    }
    assert json[2..7] == pat;
    FirstIsFound(json, pat, 0, 2);
    assert json[7] == '}';
  }

  lemma PrintTwo(v: Value, f: Field)
    ensures Print([Field("", v), f]) == "{\"\":" + PrintValue(v) + "," + PrintField(f) + "}"
  {
    assert [Field("", v), f][1..] == [f];
    assert PrintRest([f]) == PrintField(f) + "}";
    assert PrintRest([Field("", v), f]) == PrintField(Field("", v)) + ("," + PrintRest([f]));
    assert PrintField(Field("", v)) == "\"\":" + PrintValue(v);
  }

  lemma CommaMisleads()
    ensures ExtractJsonValue(Print([Field("", Text("")), Field(":", Text(""))]), ",") == ":"
  {
    var json, pre, pat := Print([Field("", Text("")), Field(":", Text(""))]), "{\"\":\"", "\",\":\"";
    PrintTwo(Text(""), Field(":", Text("")));
    assert json == "{\"\":\"\",\":\":\"\"}" == pre + pat + ":\"\"}";
    assert Quoted(",") + ":\"" == pat;
    forall j: nat | j < 5 ensures !At(json, pat, j) {
      assert json[j..j + 5][1] == json[j + 1] != ',';
    }
    FirstAtIsExtracted(json, pre, ",", ":\"\"}", ":");
  }

  lemma RawGapMisleads(raw: string)
    requires Field("", Raw(raw)).Plain()
    ensures ExtractJsonValue(Print([Field("", Raw(raw)), Field(":", Text(""))]), ":" + raw + ",") == ":"
  {
    var json, key := Print([Field("", Raw(raw)), Field(":", Text(""))]), ":" + raw + ",";
    var pre, pat := "{\"", Quoted(key) + ":\"";
    PrintTwo(Raw(raw), Field(":", Text("")));
    assert json == pre + pat + ":\"\"}";
    forall j: nat | j < 2 ensures !At(json, pat, j) {
      assert json[j..j + |pat|][0] == json[j] && json[j..j + |pat|][1] == json[j + 1];
    }
    FirstAtIsExtracted(json, pre, key, ":\"\"}", ":");
  }

  /** An object without the key from which something is extracted. */
  function Misleading(key: string): seq<Field>
    requires IsRawGap(key) || key == ":" || key == ","
  {
    if key == ":" then [Field("", Text(":"))]
    else if key == "," then [Field("", Text("")), Field(":", Text(""))]
    else [Field("", Raw(key[1..|key| - 1])), Field(":", Text(""))]
  }

  lemma MisleadingIsPlain(key: string)
    requires '"' !in key && !Searchable(key)
    ensures AllPlain(Misleading(key))
    ensures forall j :: 0 <= j < |Misleading(key)| ==> Misleading(key)[j].key != key
  {
  }

  /** For every other key extraction is wrong on some object. */
  lemma UnsearchableMisleads(key: string)
    requires '"' !in key && !Searchable(key)
    ensures AllPlain(Misleading(key)) && ExtractJsonValue(Print(Misleading(key)), key) != LookUp(Misleading(key), key)
  {
    MisleadingIsPlain(key);
    hide ExtractJsonValue, Print;
    LookUpNone(Misleading(key), key);
    if key == ":" {
      ColonMisleads();
    } else if key == "," {
      CommaMisleads();
    } else {
      var raw := key[1..|key| - 1];
      assert key == ":" + raw + ",";
      assert Misleading(key)[0] in Misleading(key);
      RawGapMisleads(raw);
    }
  }

  /** Extraction by `key` is right on every object exactly when the key is no separator text. */
  lemma ExtractionIsRightIff(key: string)
    requires '"' !in key
    ensures (forall fields | AllPlain(fields) :: ExtractJsonValue(Print(fields), key) == LookUp(fields, key))
            <==> Searchable(key)
  {
    if Searchable(key) {
      forall fields | AllPlain(fields) ensures ExtractJsonValue(Print(fields), key) == LookUp(fields, key) {
        ExtractUndoesPrint(fields, key);
      }
    } else {
      UnsearchableMisleads(key);
    }
  }

  // Extraction from any text.

  lemma FoundAfter(pre: string, pat: string, tail: string)
    requires forall j: nat :: j < |pre| ==> !At(pre + pat + tail, pat, j)
    ensures Find(pre + pat + tail, pat) == Some(|pre|) && (pre + pat + tail)[|pre| + |pat|..] == tail
  {
    assert At(pre + pat + tail, pat, |pre|);
    FirstIsFound(pre + pat + tail, pat, 0, |pre|);
  }

  lemma ReadToQuoteOrEnd(s: string, start: nat, text: string, rest: string)
    requires start <= |s| && s[start..] == text + rest && '"' !in text && (rest == "" || rest[0] == '"')
    ensures Slice(s, start, FindFrom(s, "\"", start)) == text
  {
    if rest == "" {
      forall j: nat | start <= j < |s| ensures !At(s, "\"", j) {
        assert s[j..j + 1][0] == s[start..][j - start] == text[j - start];
      }
      assert FindFrom(s, "\"", start) == None;
    } else {
      ReadToQuote(s, start, text);
    }
  }

  lemma ReadToSeparator(s: string, start: nat, raw: string, rest: string)
    requires start <= |s| && s[start..] == raw + rest
    requires (forall c :: c in raw ==> c !in ",}") && (rest == "" || rest[0] in ",}")
    ensures Slice(s, start, FindAnyFrom(s, ",}", start)) == raw
  {
    var end := start + |raw|;
    forall j | start <= j < end ensures s[j] !in ",}" {
      assert s[j] == s[start..][j - start] == raw[j - start];
      assert s[j] in raw;
    }
    assert s[start..end] == s[start..][..|raw|] == raw;
    if rest != "" {
      assert s[end] == s[start..][|raw|] == rest[0];
    } else {
      assert s[start..] == raw;
    }
  }

  /** A string is read to the next quote, or to the end of the text. */
  lemma ExtractString(pre: string, key: string, text: string, rest: string)
    requires '"' !in text && (rest == "" || rest[0] == '"')
    requires var pat := Quoted(key) + ":\""; forall j: nat :: j < |pre| ==> !At(pre + pat + (text + rest), pat, j)
    ensures ExtractJsonValue(pre + (Quoted(key) + ":\"") + (text + rest), key) == text
  {
    var pat := Quoted(key) + ":\"";
    FoundAfter(pre, pat, text + rest);
    ReadToQuoteOrEnd(pre + pat + (text + rest), |pre| + |pat|, text, rest);
    hide At, FindFrom, Slice;
  }

  /** When no string follows the key anywhere, the text after it is read to the next comma or brace, or to
      the end. */
  lemma ExtractOther(pre: string, key: string, raw: string, rest: string)
    requires (forall c :: c in raw ==> c !in ",}") && (rest == "" || rest[0] in ",}")
    requires var pat := Quoted(key) + ":"; forall j: nat :: j < |pre| ==> !At(pre + pat + (raw + rest), pat, j)
    requires forall j: nat :: !At(pre + (Quoted(key) + ":") + (raw + rest), Quoted(key) + ":\"", j)
    ensures ExtractJsonValue(pre + (Quoted(key) + ":") + (raw + rest), key) == raw
  {
    hide ExtractJsonValue, Quoted, At, FindFrom, FindAnyFrom, Slice;
    var pat := Quoted(key) + ":";
    NeverFound(pre + pat + (raw + rest), Quoted(key) + ":\"");
    FoundAfter(pre, pat, raw + rest);
    ReadToSeparator(pre + pat + (raw + rest), |pre| + |pat|, raw, rest);
    ExtractsAt(pre + pat + (raw + rest), key, |pre|);
  }

  lemma ExtractsAt(json: string, key: string, i: nat)
    requires i + |key| + 3 <= |json|
    requires Find(json, Quoted(key) + ":\"") == None && Find(json, Quoted(key) + ":") == Some(i)
    ensures var start := i + |key| + 3;
            ExtractJsonValue(json, key) == Slice(json, start, FindAnyFrom(json, ",}", start))
  {
    hide At, FindFrom, FindAnyFrom, Slice, Quoted;
  }

  lemma NeverFound(s: string, pat: string)
    requires forall j: nat :: !At(s, pat, j)
    ensures Find(s, pat) == None
  {
  }

  /** A text without the key gives nothing. */
  lemma ExtractNothing(json: string, key: string)
    requires forall j: nat :: !At(json, Quoted(key) + ":", j)
    ensures ExtractJsonValue(json, key) == ""
  {
    var pat := Quoted(key) + ":";
    var f := Find(json, Quoted(key) + ":\"");
    if f.Some? {
      AtPrefix(json, pat, Quoted(key) + ":\"", f.value);
    }
  }

  lemma PrintedObject()
    ensures Print([Field("fid", Text("3,01")), Field("count", Raw("1"))]) == "{\"fid\":\"3,01\",\"count\":1}"
  {
    var f, g := Field("fid", Text("3,01")), Field("count", Raw("1"));
    assert [f, g][1..] == [g];
    assert PrintRest([g]) == PrintField(g) + "}";
    assert PrintRest([f, g]) == PrintField(f) + ("," + PrintRest([g]));
  }
}

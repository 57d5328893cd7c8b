/** Percent encoding (section 2.1 of RFC 3986) and form encoding, built on the growable buffer. */
module FormEncoding {
  import opened Strings
  import Paths
  import VS = VarString

  const UNSAFE := " $&+,/:;=@\"<>#%{}|\\^~[]`"

  predicate IsUnsafe(c: char) {
    c in UNSAFE
  }

  /** `check_unsafe`: the pointer walk over the list of unsafe characters. */
  method CheckUnsafe(c: char) returns (r: bool)
    ensures r <==> IsUnsafe(c)
  {
    var p := 0;
    while p < |UNSAFE|
      invariant p <= |UNSAFE|
      invariant c !in UNSAFE[..p]
    {
      if UNSAFE[p] == c {
        return true;
      }
      p := p + 1;
    }
    assert UNSAFE[..|UNSAFE|] == UNSAFE;
    return false;
  }

  /** The unsafe characters are ASCII, none of them a hexadecimal digit, and '%', '&' and '=' are among them. */
  lemma UnsafeCharacters(c: char)
    requires IsUnsafe(c)
    ensures 0x20 <= c as int < 0x80 && !IsHex(c)
    ensures IsUnsafe('%') && IsUnsafe('&') && IsUnsafe('=')
  {
    var i :| 0 <= i < |UNSAFE| && UNSAFE[i] == c;
    assert forall k :: 0 <= k < |UNSAFE| ==> 0x20 <= UNSAFE[k] as int < 0x80 && !IsHex(UNSAFE[k]) by {
      UnsafeListChecked();
    }
    assert UNSAFE[14] == '%' && UNSAFE[2] == '&' && UNSAFE[8] == '=';
  }

  predicate IsAlphanumeric(c: char) {
    '0' <= c <= '9' || 'A' <= c <= 'Z' || 'a' <= c <= 'z'
  }

  /** The printable ASCII characters besides letters and digits that are not escaped. */
  const MARKS := "!'()*-.?_"

  lemma MarksListed(c: char)
    ensures c in MARKS <==>
            c == '!' || c == '\'' || c == '(' || c == ')' || c == '*' || c == '-' || c == '.' || c == '?' || c == '_'
  {
    assert MARKS[0] == '!' && MARKS[1] == '\'' && MARKS[2] == '(' && MARKS[3] == ')';
    assert MARKS[4] == '*' && MARKS[5] == '-' && MARKS[6] == '.' && MARKS[7] == '?';
    assert MARKS[8] == '_';
  }

  lemma UnsafeListed(c: char)
    ensures IsUnsafe(c) <==>
            || c == ' ' || '"' <= c <= '&' || '+' <= c <= ',' || c == '/' || ':' <= c <= '>' || c == '@'
            || '[' <= c <= '^' || c == '`' || '{' <= c <= '~'
  {
    assert UNSAFE[0] == ' ' && UNSAFE[1] == '$' && UNSAFE[2] == '&' && UNSAFE[3] == '+';
    assert UNSAFE[4] == ',' && UNSAFE[5] == '/' && UNSAFE[6] == ':' && UNSAFE[7] == ';';
    assert UNSAFE[8] == '=' && UNSAFE[9] == '@' && UNSAFE[10] == '\"' && UNSAFE[11] == '<';
    assert UNSAFE[12] == '>' && UNSAFE[13] == '#' && UNSAFE[14] == '%' && UNSAFE[15] == '{';
    assert UNSAFE[16] == '}' && UNSAFE[17] == '|' && UNSAFE[18] == '\\' && UNSAFE[19] == '^';
    assert UNSAFE[20] == '~' && UNSAFE[21] == '[' && UNSAFE[22] == ']' && UNSAFE[23] == '`';
  }

  /** Escaped are exactly the printable ASCII characters that are neither alphanumeric nor one of nine marks. */
  lemma UnsafeExactly(c: char)
    ensures IsUnsafe(c) <==> ' ' <= c <= '~' && !IsAlphanumeric(c) && c !in MARKS
  {
    hide IsUnsafe;
    UnsafeListed(c);
    MarksListed(c);
  }

  lemma UnsafeListChecked()
    ensures forall k :: 0 <= k < |UNSAFE| ==> 0x20 <= UNSAFE[k] as int < 0x80 && !IsHex(UNSAFE[k])
  {
  }

  /** An upper-case hexadecimal digit, as "%02X" prints it. */
  function Hex(d: nat): (c: char)
    requires d < 16
    ensures IsHex(c) && HexValue(c) == d && !('a' <= c <= 'z')
  {
    if d < 10 then '0' + d as char else 'A' + (d - 10) as char
  }

  /** A hexadecimal digit of either case. */
  predicate IsHex(c: char) {
    '0' <= c <= '9' || 'A' <= c <= 'F' || 'a' <= c <= 'f'
  }

  function HexValue(c: char): nat
    requires IsHex(c)
  {
    if c <= '9' then (c - '0') as nat else if c <= 'F' then (c - 'A') as nat + 10 else (c - 'a') as nat + 10
  }

  function Percent(c: char): (s: string)
    requires c as int < 0x80
    ensures |s| == 3
  {
    ['%', Hex(c as int / 16), Hex(c as int % 16)]
  }

  /** What encoding makes of a string. */
  function EncodeString(s: string): string {
    if s == "" then ""
    else if IsUnsafe(s[0]) then
      UnsafeCharacters(s[0]);
      Percent(s[0]) + EncodeString(s[1..])
    else [s[0]] + EncodeString(s[1..])
  }

  /** Percent-decoding: '%' and two hexadecimal digits stand for a character, everything else for itself. */
  function DecodeString(s: string): string {
    if s == "" then ""
    else if |s| >= 3 && s[0] == '%' && IsHex(s[1]) && IsHex(s[2]) then
      [(HexValue(s[1]) * 16 + HexValue(s[2])) as char] + DecodeString(s[3..])
    else [s[0]] + DecodeString(s[1..])
  }

  lemma PercentDecodes(c: char, rest: string)
    requires c as int < 0x80
    ensures DecodeString(Percent(c) + rest) == [c] + DecodeString(rest)
  {
  }

  lemma OtherDecodes(c: char, rest: string)
    requires c != '%'
    ensures DecodeString([c] + rest) == [c] + DecodeString(rest)
  {
  }

  /** Every string decodes back from its encoding; this rests on '%' being escaped. */
  lemma {:induction false} DecodeEncode(s: string)
    ensures DecodeString(EncodeString(s)) == s
  {
    hide DecodeString, IsUnsafe, Percent;
    if s == "" {
      DecodeEmpty();
    } else {
      DecodeEncode(s[1..]);
      var rest := EncodeString(s[1..]);
      if IsUnsafe(s[0]) {
        UnsafeCharacters(s[0]);
        PercentDecodes(s[0], rest);
      } else {
        PercentIsUnsafe();
        OtherDecodes(s[0], rest);
      }
      assert [s[0]] + s[1..] == s;
    }
  }

  lemma DecodeEmpty()
    ensures DecodeString("") == ""
  {
  }

  lemma PercentIsUnsafe()
    ensures IsUnsafe('%')
  {
  }

  /** An encoding contains no unsafe character but the '%' of its escapes, and no NUL that was not there. */
  lemma {:induction false} EncodingIsSafe(s: string, c: char)
    requires c in EncodeString(s)
    ensures c == '%' || !IsUnsafe(c)
    ensures VS.NulFree(s) ==> c != VS.NUL
  {
    if s != "" {
      var rest := EncodeString(s[1..]);
      assert VS.NulFree(s) ==> VS.NulFree(s[1..]) && s[0] != VS.NUL;
      if c in rest {
        EncodingIsSafe(s[1..], c);
      } else if IsUnsafe(s[0]) {
        UnsafeCharacters(s[0]);
        assert c in Percent(s[0]);
        if IsUnsafe(c) && c != '%' {
          UnsafeCharacters(c);
        }
      }
    }
  }

  // ---------------------------------------------------------------------------------------------
  // Forms
  // ---------------------------------------------------------------------------------------------

  /** A form: the entries of a map in iteration order. */
  type Form = seq<(string, string)>

  /** Keys are written as they are, values encoded; both only up to their first NUL. */
  function Field(e: (string, string)): string {
    VS.CStr(e.0) + "=" + EncodeString(VS.CStr(e.1))
  }

  function Fields(form: Form): (fs: seq<string>)
    ensures |fs| == |form|
  {
    seq(|form|, i requires 0 <= i < |form| => Field(form[i]))
  }

  function EncodeForm(form: Form): string {
    if form == [] then "" else VS.Join(Fields(form), "&")
  }

  /** Reading one field: the key up to the first '=', the decoded value after it. */
  function ParseField(f: string): (string, string) {
    var i := Find(f, '=', 0);
    if i < |f| then (f[..i], DecodeString(f[i + 1..])) else (f, "")
  }

  function ParseForm(s: string): Form {
    if s == "" then []
    else
      var fs := VS.Split(s, "&");
      seq(|fs|, i requires 0 <= i < |fs| => ParseField(fs[i]))
  }

  predicate CleanKey(k: string) {
    '&' !in k && '=' !in k && VS.NulFree(k)
  }

  predicate CleanForm(form: Form) {
    forall i :: 0 <= i < |form| ==> CleanKey(form[i].0) && VS.NulFree(form[i].1)
  }

  /** The form as its C strings show it. */
  function Shown(form: Form): (r: Form)
    ensures |r| == |form|
  {
    seq(|form|, i requires 0 <= i < |form| => (VS.CStr(form[i].0), VS.CStr(form[i].1)))
  }

  lemma ParseFieldOf(e: (string, string))
    requires CleanKey(VS.CStr(e.0))
    ensures ParseField(Field(e)) == (VS.CStr(e.0), VS.CStr(e.1))
    ensures '&' !in Field(e)
  {
    var k, v := VS.CStr(e.0), EncodeString(VS.CStr(e.1));
    var f := Field(e);
    FindEquals(k, v);
    assert f[..|k|] == k && f[|k| + 1..] == v;
    DecodeEncode(VS.CStr(e.1));
    if '&' in f {
      assert '&' in v;
      EncodingIsSafe(VS.CStr(e.1), '&');
      UnsafeCharacters('%');
      assert false;
    }
  }

  lemma FindEquals(k: string, v: string)
    requires '=' !in k
    ensures Find(k + "=" + v, '=', 0) == |k|
  {
    var f := k + "=" + v;
    Paths.FindIs(f, '=', 0, |k|, k);
  }

  lemma AmpersandAt(s: string, i: nat)
    ensures OccursAt(s, "&", i) <==> i < |s| && s[i] == '&'
  {
  }

  lemma {:induction false} AmpersandFreePartsCutCleanly(parts: seq<string>)
    requires parts != [] && forall f <- parts :: '&' !in f
    ensures VS.CutsCleanly(parts, "&")
    decreases |parts|
  {
    var f := parts[0];
    assert f in parts;
    if |parts| == 1 {
      forall i: nat | i <= |f|
        ensures !OccursAt(f, "&", i)
      {
        AmpersandAt(f, i);
      }
    } else {
      var g := f + "&";
      assert OccursAt(g, "&", |f|);
      forall i: nat | i < |f|
        ensures !OccursAt(g, "&", i)
      {
        AmpersandAt(g, i);
      }
      assert forall x <- parts[1..] :: x in parts;
      AmpersandFreePartsCutCleanly(parts[1..]);
    }
  }

  /** With clean keys, parsing the encoded form gives the form up to the NULs in its values. */
  lemma ParseEncodeShown(form: Form)
    requires forall i :: 0 <= i < |form| ==> CleanKey(VS.CStr(form[i].0))
    ensures ParseForm(EncodeForm(form)) == Shown(form)
  {
    if form != [] {
      var fs := Fields(form);
      forall i | 0 <= i < |form|
        ensures ParseField(fs[i]) == Shown(form)[i] && '&' !in fs[i]
      {
        ParseFieldOf(form[i]);
      }
      AmpersandFreePartsCutCleanly(fs);
      VS.SplitJoinExactly(fs, "&");
      JoinIsNotEmpty(form);
    }
  }

  lemma JoinIsNotEmpty(form: Form)
    requires form != []
    ensures EncodeForm(form) != ""
  {
  }

  lemma {:induction false} SplitPartsAreFree(s: string)
    ensures forall f <- VS.Split(s, "&") :: '&' !in f && (VS.NulFree(s) ==> VS.NulFree(f))
    decreases |s|
  {
    var i := FindSub(s, "&", 0);
    forall k: nat | k < |s| && k < i
      ensures s[k] != '&'
    {
      assert !OccursAt(s, "&", k);
      assert s[k..k + 1] == [s[k]];
    }
    if i <= |s| {
      var rest := s[i + 1..];
      SplitPartsAreFree(rest);
      assert VS.NulFree(s) ==> VS.NulFree(rest) && VS.NulFree(s[..i]);
    }
  }

  lemma ParsedKeysAreClean(s: string, i: nat)
    requires VS.NulFree(s)
    requires i < |ParseForm(s)|
    ensures CleanKey(ParseForm(s)[i].0)
  {
    SplitPartsAreFree(s);
    var f := VS.Split(s, "&")[i];
    assert f in VS.Split(s, "&");
    var j := Find(f, '=', 0);
    assert f[0..j] == f[..j] && f[0..] == f;
  }

  lemma {:induction false} JoinIsNulFree(parts: seq<string>)
    requires parts != [] && forall f <- parts :: VS.NulFree(f)
    ensures VS.NulFree(VS.Join(parts, "&"))
    decreases |parts|
  {
    assert parts[0] in parts;
    if |parts| > 1 {
      assert forall f <- parts[1..] :: f in parts;
      JoinIsNulFree(parts[1..]);
    }
  }

  lemma EncodedFormIsNulFree(form: Form)
    ensures VS.NulFree(EncodeForm(form))
  {
    if form != [] {
      var fs := Fields(form);
      forall f | f in fs
        ensures VS.NulFree(f)
      {
        var i :| 0 <= i < |fs| && fs[i] == f;
        FieldIsNulFree(form[i]);
      }
      JoinIsNulFree(fs);
    }
  }

  lemma FieldIsNulFree(e: (string, string))
    ensures VS.NulFree(Field(e))
  {
    VS.CStrOfNulFree(e.0);
    VS.CStrOfNulFree(e.1);
    if VS.NUL in EncodeString(VS.CStr(e.1)) {
      EncodingIsSafe(VS.CStr(e.1), VS.NUL);
    }
  }

  /**
   Splitting the encoded form on '&', then each field on its first '=', then decoding the values
   gives back the form, with its order, exactly when no key holds '&', '=' or NUL and no value NUL.
   */
  lemma ParseEncodeExactly(form: Form)
    ensures ParseForm(EncodeForm(form)) == form <==> CleanForm(form)
  {
    forall i | 0 <= i < |form|
      ensures VS.NulFree(form[i].0) <==> VS.CStr(form[i].0) == form[i].0
      ensures VS.NulFree(form[i].1) <==> VS.CStr(form[i].1) == form[i].1
    {
      VS.CStrOfNulFree(form[i].0);
      VS.CStrOfNulFree(form[i].1);
    }
    if CleanForm(form) {
      ParseEncodeShown(form);
      assert Shown(form) == form;
    }
    if ParseForm(EncodeForm(form)) == form {
      EncodedFormIsNulFree(form);
      forall i | 0 <= i < |form|
        ensures CleanKey(form[i].0)
      {
        ParsedKeysAreClean(EncodeForm(form), i);
      }
      ParseEncodeShown(form);
      forall i | 0 <= i < |form|
        ensures VS.CStr(form[i].1) == form[i].1
      {
        assert Shown(form)[i] == form[i];
      }
    }
  }

  /** The map a form stands for; of two entries with the same key the later counts. */
  function MapOf(form: Form): map<string, string> {
    if form == [] then map[]
    else
      var last := form[|form| - 1];
      MapOf(form[..|form| - 1])[last.0 := last.1]
  }

  /** The form is an iteration over the map: each entry once, in some order. */
  ghost predicate Lists(form: Form, m: map<string, string>) {
    && (forall i, j :: 0 <= i < j < |form| ==> form[i].0 != form[j].0)
    && (forall i :: 0 <= i < |form| ==> form[i].0 in m && m[form[i].0] == form[i].1)
    && (forall k <- m :: exists i :: 0 <= i < |form| && form[i].0 == k)
  }

  lemma {:induction false} EntryOf(form: Form, k: string) returns (i: nat)
    requires k in MapOf(form)
    ensures i < |form| && form[i] == (k, MapOf(form)[k])
  {
    i := |form| - 1;
    if k != form[i].0 {
      i := EntryOf(form[..i], k);
    }
  }

  lemma {:induction false} KeyIsInMap(form: Form, i: nat)
    requires i < |form|
    ensures form[i].0 in MapOf(form)
  {
    if i < |form| - 1 {
      KeyIsInMap(form[..|form| - 1], i);
    }
  }

  lemma ListedMap(form: Form, m: map<string, string>)
    requires Lists(form, m)
    ensures MapOf(form) == m
  {
    forall k | k in m
      ensures k in MapOf(form)
    {
      var i :| 0 <= i < |form| && form[i].0 == k;
      KeyIsInMap(form, i);
    }
    forall k | k in MapOf(form)
      ensures k in m && m[k] == MapOf(form)[k]
    {
      var i := EntryOf(form, k);
    }
  }

  /**
   Whatever the order in which a map is iterated over, reading the encoded form gives back the same
   map exactly when no key of it holds '&', '=' or NUL and no value NUL.
   */
  lemma MapRoundTrip(m: map<string, string>, form: Form)
    requires Lists(form, m)
    ensures MapOf(ParseForm(EncodeForm(form))) == m
            <==> forall k <- m :: CleanKey(k) && VS.NulFree(m[k])
  {
    hide EncodeForm, ParseForm, VS.CStr, VS.NulFree;
    var read := ParseForm(EncodeForm(form));
    if forall k <- m :: CleanKey(k) && VS.NulFree(m[k]) {
      ParseEncodeExactly(form);
      ListedMap(form, m);
    }
    if MapOf(read) == m {
      EncodedFormIsNulFree(form);
      forall k | k in m
        ensures CleanKey(k)
      {
        var i := EntryOf(read, k);
        ParsedKeysAreClean(EncodeForm(form), i);
      }
      forall i | 0 <= i < |form|
        ensures VS.CStr(form[i].0) == form[i].0
      {
        VS.CStrOfNulFree(form[i].0);
      }
      ParseEncodeShown(form);
      forall k | k in m
        ensures VS.NulFree(m[k])
      {
        var i := EntryOf(read, k);
        VS.CStrOfNulFree(form[i].1);
      }
    }
  }

  // ---------------------------------------------------------------------------------------------
  // The methods
  // ---------------------------------------------------------------------------------------------

  lemma EncodeStringSnoc(s: string, c: char)
    ensures EncodeString(s + [c]) == EncodeString(s) + EncodeString([c])
  {
    if s != "" {
      assert (s + [c])[1..] == s[1..] + [c];
      EncodeStringSnoc(s[1..], c);
    } else {
      assert s + [c] == [c];
    }
  }

  lemma EncodeStep(s: string, p: nat)
    requires p < |s|
    ensures EncodeString(s[..p + 1])
            == EncodeString(s[..p])
               + if IsUnsafe(s[p]) then UnsafeCharacters(s[p]); Percent(s[p]) else [s[p]]
  {
    assert s[..p + 1] == s[..p] + [s[p]];
    EncodeStringSnoc(s[..p], s[p]);
    assert [s[p]][1..] == "";
  }

  lemma EscapeIsSeen(c: char)
    requires c as int < 0x80
    ensures var tmp := [Hex(c as int / 16), Hex(c as int % 16)];
            VS.CStr(tmp) == tmp && Percent(c) == ['%'] + tmp
  {
  }

  /** `encode` of a string: the pointer stops at the first NUL. */
  method Encode(url: string) returns (r: string)
    ensures r == EncodeString(VS.CStr(url))
  {
    hide EncodeString, Percent, VS.CStr, IsUnsafe, VS.Grown;
    var vs := new VS.Buffer();
    var p := 0;
    var seen := VS.CStr(url);
    EncodeEmpty();
    assert seen[..0] == "";
    while p < |seen|
      invariant p <= |seen|
      invariant vs.Valid() && fresh(vs) && fresh(vs.p)
      invariant vs.Contents() == EncodeString(seen[..p])
    {
      var c := seen[p];
      EncodeStep(seen, p);
      var unsafe := CheckUnsafe(c);
      if unsafe {
        UnsafeCharacters(c);
        EscapeIsSeen(c);
        vs.AppendChar('%');
        vs.Append([Hex(c as int / 16), Hex(c as int % 16)]);
      } else {
        vs.AppendChar(c);
      }
      p := p + 1;
    }
    assert seen[..|seen|] == seen;
    r := vs.ToString();
  }

  lemma EncodeEmpty()
    ensures EncodeString("") == ""
  {
  }

  lemma FieldsStep(form: Form, i: nat)
    requires i < |form|
    ensures VS.Terminated(Fields(form[..i + 1]), "&")
            == VS.Terminated(Fields(form[..i]), "&") + Field(form[i]) + "&"
  {
    var fs := Fields(form[..i + 1]);
    assert fs[..|fs| - 1] == Fields(form[..i]);
  }

  lemma NoFields()
    ensures VS.Terminated(Fields([]), "&") == ""
  {
  }

  lemma FieldOf(e: (string, string))
    ensures VS.CStr(EncodeString(VS.CStr(e.1))) == EncodeString(VS.CStr(e.1))
    ensures Field(e) == VS.CStr(e.0) + "=" + EncodeString(VS.CStr(e.1))
  {
    EncodingHasNoNul(e.1);
  }

  lemma Regroup(was: string, k: string, v: string)
    ensures was + k + ['='] + v + ['&'] == was + (k + "=" + v) + "&"
  {
  }

  lemma EncodeFormIs(form: Form)
    requires form != []
    ensures VS.Terminated(Fields(form), "&") == EncodeForm(form) + "&"
  {
    VS.TerminatedIsJoin(Fields(form), "&");
  }

  /** `encode` of a map. */
  method EncodeMap(body: Form) returns (r: string)
    ensures r == EncodeForm(body)
  {
    hide Fields, Field, VS.Terminated, VS.CStr, EncodeString, EncodeForm, VS.Grown;
    var vs := new VS.Buffer();
    assert body[..0] == [];
    NoFields();
    for i := 0 to |body|
      invariant vs.Valid() && fresh(vs) && fresh(vs.p)
      invariant vs.Contents() == VS.Terminated(Fields(body[..i]), "&")
    {
      FieldsStep(body, i);
      FieldOf(body[i]);
      var encoded := Encode(body[i].1);
      Regroup(vs.Contents(), VS.CStr(body[i].0), encoded);
      vs.Append(body[i].0);
      vs.AppendChar('=');
      vs.Append(encoded);
      vs.AppendChar('&');
    }
    assert body[..|body|] == body;
    if |body| > 0 {
      EncodeFormIs(body);
      vs.DropOne();
      r := vs.ToString();
    } else {
      r := "";
      EncodeNoForm();
    }
  }

  lemma EncodeNoForm()
    ensures EncodeForm([]) == ""
  {
  }

  lemma EncodingHasNoNul(value: string)
    ensures VS.CStr(EncodeString(VS.CStr(value))) == EncodeString(VS.CStr(value))
  {
    VS.CStrOfNulFree(value);
    if VS.NUL in EncodeString(VS.CStr(value)) {
      EncodingIsSafe(VS.CStr(value), VS.NUL);
    }
    VS.CStrOfNulFree(EncodeString(VS.CStr(value)));
  }
}

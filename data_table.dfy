/** The members table: the avatar initials and hue of a name, the columns chosen from
    the first row's keys, the column headings and cell values, and five-row pages
    with their navigation buttons. */
module DataTable {
  import opened JsValues
  import opened Seqs
  import NaiveCsv

  // ---------------------------------------------------------------------------
  // Initials

  /** Length of the run of non-space characters that starts `s`. */
  function WordEnd(s: string): (n: nat)
    ensures n <= |s|
    ensures forall i :: 0 <= i < n ==> !IsSpace(s[i])
    ensures n < |s| ==> IsSpace(s[n])
  {
    if s == [] || IsSpace(s[0]) then 0 else 1 + WordEnd(s[1..])
  }

  lemma {:induction false} TrimStartShrinks(s: string)
    ensures |TrimStart(s)| <= |s|
    ensures TrimStart(s) == [] || !IsSpace(TrimStart(s)[0])
    ensures s != [] && !IsSpace(s[|s| - 1]) ==> TrimStart(s) != [] && TrimStart(s)[|TrimStart(s)| - 1] == s[|s| - 1]
  {
    if s != [] && IsSpace(s[0]) {
      TrimStartShrinks(s[1..]);
    }
  }

  /** `s.split(/\s+/)`: the pieces between runs of white space, with an empty first piece
      when `s` starts with white space and an empty last piece when it ends with it. */
  function Words(s: string): (parts: seq<string>)
    ensures |parts| >= 1
    decreases |s|
  {
    var n := WordEnd(s);
    if n == |s| then [s]
    else
      TrimStartShrinks(s[n + 1..]);
      [s[..n]] + Words(TrimStart(s[n + 1..]))
  }

  /** There is a second piece exactly when `s` holds white space. */
  lemma WordsCount(s: string)
    ensures |Words(s)| >= 2 <==> exists i :: 0 <= i < |s| && IsSpace(s[i])
  {
    var n := WordEnd(s);
    if n < |s| {
      TrimStartShrinks(s[n + 1..]);
      assert Words(s) == [s[..n]] + Words(TrimStart(s[n + 1..]));
    }
  }

  /** In a trimmed, non-blank string the first piece, and the second when there is one,
      are not empty, and the first piece starts with the string's first character. */
  lemma WordsOfTrimmed(s: string)
    requires NaiveCsv.Trimmed(s) && s != []
    ensures Words(s)[0] != [] && Words(s)[0][0] == s[0]
    ensures |Words(s)| >= 2 ==> Words(s)[1] != []
  {
    var n := WordEnd(s);
    if n < |s| {
      var rest := s[n + 1..];
      assert n + 1 < |s| by {
        assert IsSpace(s[n]);
      }
      assert rest[|rest| - 1] == s[|s| - 1];
      TrimStartShrinks(rest);
      var t := TrimStart(rest);
      assert Words(s) == [s[..n]] + Words(t);
      assert WordEnd(t) >= 1;
      assert Words(t)[0] == t[..WordEnd(t)] || Words(t)[0] == t;
    }
  }

  /** `initials(name)` */
  function Initials(name: Value): string
  {
    if !Truthy(name) then "?"
    else
      var parts := Words(Trim(ToStr(name)));
      (if parts[0] != [] then [parts[0][0]] else "?")
      + (if |parts| >= 2 && parts[1] != [] then [parts[1][0]] else "")
  }

  /** The initials are "?" for a falsy name; otherwise one or two characters: the first
      character of the trimmed name ("?" when it is blank), then a second character exactly
      when the trimmed name holds white space. */
  lemma InitialsShape(name: Value)
    ensures 1 <= |Initials(name)| <= 2
    ensures !Truthy(name) ==> Initials(name) == "?"
    ensures Truthy(name) && Trim(ToStr(name)) == [] ==> Initials(name) == "?"
    ensures Truthy(name) && Trim(ToStr(name)) != [] ==>
              Initials(name)[0] == Trim(ToStr(name))[0]
              && (|Initials(name)| == 2 <==> exists i :: 0 <= i < |Trim(ToStr(name))| && IsSpace(Trim(ToStr(name))[i]))
  {
    if Truthy(name) {
      var s := Trim(ToStr(name));
      NaiveCsv.TrimIsTrimmed(ToStr(name));
      WordsCount(s);
      if s != [] {
        WordsOfTrimmed(s);
      } else {
        assert WordEnd(s) == 0;
        assert Words(s) == [""];
      }
    }
  }

  // ---------------------------------------------------------------------------
  // Avatar colour

  /** `String(name || "member")` */
  function AvatarText(name: Value): string
  {
    if Truthy(name) then ToStr(name) else "member"
  }

  /** The hue after the characters of `s`: `h = (h * 31 + code) % 360`, from 0. */
  function Hue(s: string): (h: nat)
    ensures h < 360
  {
    if s == [] then 0 else (Hue(s[..|s| - 1]) * 31 + s[|s| - 1] as int) % 360
  }

  /** `avatarColor(name)` as its two hues: the hash of the text, which stays in [0, 360)
      after every character, and the hue 30 degrees further round the circle. */
  method AvatarColor(name: Value) returns (h: int, h2: int)
    ensures h == Hue(AvatarText(name)) && 0 <= h < 360
    ensures h2 == if h < 330 then h + 30 else h - 330
  {
    h := TextHue(AvatarText(name));
    h2 := (h + 30) % 360;
  }

  /** The hash loop of `avatarColor`, one character at a time. */
  method TextHue(s: string) returns (h: int)
    ensures h == Hue(s) && 0 <= h < 360
  {
    h := 0;
    var i := 0;
    while i < |s|
      invariant 0 <= i <= |s|
      invariant h == Hue(s[..i])
    {
      assert s[..i + 1][..i] == s[..i];
      h := (h * 31 + s[i] as int) % 360;
      i := i + 1;
    }
    assert s[..|s|] == s;
  }

  lemma HueStep(s: string, c: char, before: nat, after: nat)
    requires Hue(s) == before && (before * 31 + c as int) % 360 == after
    ensures Hue(s + [c]) == after
  {
    assert (s + [c])[..|s|] == s;
  }

  /** The hue of "member" is 122. */
  lemma MemberHue()
    ensures Hue("member") == 122
  {
    var s1 := [] + ['m'];
    HueStep([], 'm', 0, 109);
    var s2 := s1 + ['e'];
    HueStep(s1, 'e', 109, 240);
    var s3 := s2 + ['m'];
    HueStep(s2, 'm', 240, 349);
    var s4 := s3 + ['b'];
    HueStep(s3, 'b', 349, 117);
    var s5 := s4 + ['e'];
    HueStep(s4, 'e', 117, 128);
    var s6 := s5 + ['r'];
    HueStep(s5, 'r', 128, 122);
    assert s6 == "member";
  }

  /** Every falsy name shares the colour of "member". */
  lemma FalsyNamesShareHue(name: Value)
    requires !Truthy(name)
    ensures Hue(AvatarText(name)) == 122
  {
    MemberHue();
  }

  // ---------------------------------------------------------------------------
  // Columns

  /** The six presentation columns in the order they are pushed. */
  const Presented: seq<string> := ["name", "email", "member_id", "role", "joined", "location"]

  /** The dataset columns added next, when the first row has them. */
  const Priority: seq<string> := [
    "phone", "phone_number", "gender", "abonement_type", "abonoment_type",
    "visit_per_week", "days_per_week", "avg_time_in_gym", "bmi", "activity_type"]

  const NameKeys: seq<string> := ["name", "member_name", "full_name"]
  const EmailKeys: seq<string> := ["email", "member_email"]
  const IdKeys: seq<string> := ["member_id", "id", "ID"]
  const RoleKeys: seq<string> := ["role"]
  const JoinedKeys: seq<string> := ["created_at", "joined_at", "date_joined"]
  const LocationKeys: seq<string> := ["location", "city"]

  /** The row keys that make a column appear, and that its cells are read from. */
  function Aliases(column: string): seq<string>
  {
    if column == "name" then NameKeys
    else if column == "email" then EmailKeys
    else if column == "member_id" then IdKeys
    else if column == "role" then RoleKeys
    else if column == "joined" then JoinedKeys
    else if column == "location" then LocationKeys
    else [column]
  }

  /** `candidates.some((k) => keys.has(k))` */
  predicate AnyIn(candidates: seq<string>, keys: seq<string>)
  {
    exists k :: k in candidates && k in keys
  }

  /** `if (cond) out.push(column)` */
  function Push(out: seq<string>, cond: bool, column: string): seq<string>
  {
    if cond then out + [column] else out
  }

  lemma PushFacts(out: seq<string>, cond: bool, column: string)
    ensures |Push(out, cond, column)| <= |out| + 1 && Push(out, cond, column)[..|out|] == out
    ensures forall x :: x in Push(out, cond, column) <==> x in out || (cond && x == column)
    ensures NoDuplicates(out) && column !in out ==> NoDuplicates(Push(out, cond, column))
  {
    if cond {
      assert (out + [column])[..|out|] == out;
    }
  }

  /** The presentation columns after the six conditional pushes, given which of them the
      first row offers. */
  function PresentationOf(name: bool, email: bool, id: bool, role: bool, joined: bool, location: bool): seq<string>
  {
    Push(Push(Push(Push(Push(Push([], name, "name"), email, "email"), id, "member_id"), role, "role"), joined, "joined"), location, "location")
  }

  function Presentation(keys: seq<string>): seq<string>
  {
    PresentationOf(AnyIn(NameKeys, keys), AnyIn(EmailKeys, keys), AnyIn(IdKeys, keys),
                   AnyIn(RoleKeys, keys), AnyIn(JoinedKeys, keys), AnyIn(LocationKeys, keys))
  }

  /** One conditional push keeps the columns distinct presentation columns. */
  lemma PushStep(out: seq<string>, cond: bool, column: string)
    requires NoDuplicates(out) && (forall x :: x in out ==> x in Presented)
    requires column in Presented && column !in out
    ensures NoDuplicates(Push(out, cond, column)) && (forall x :: x in Push(out, cond, column) ==> x in Presented)
    ensures forall x :: x in Push(out, cond, column) ==> x in out || x == column
  {
  }

  /** Each presentation column appears at most once. */
  lemma PresentationOfDistinct(name: bool, email: bool, id: bool, role: bool, joined: bool, location: bool)
    ensures var p := PresentationOf(name, email, id, role, joined, location);
            NoDuplicates(p) && (forall x :: x in p ==> x in Presented)
  {
    var o1 := Push([], name, "name");
    PushStep([], name, "name");
    var o2 := Push(o1, email, "email");
    PushStep(o1, email, "email");
    var o3 := Push(o2, id, "member_id");
    PushStep(o2, id, "member_id");
    var o4 := Push(o3, role, "role");
    PushStep(o3, role, "role");
    var o5 := Push(o4, joined, "joined");
    PushStep(o4, joined, "joined");
    PushStep(o5, location, "location");
  }

  /** "name" appears, first, exactly when the first row has a name key. */
  lemma PresentationOfName(name: bool, email: bool, id: bool, role: bool, joined: bool, location: bool)
    ensures var p := PresentationOf(name, email, id, role, joined, location);
            ("name" in p <==> name) && (name ==> p[0] == "name")
  {
    var o1 := Push([], name, "name");
    var o2 := Push(o1, email, "email");
    var o3 := Push(o2, id, "member_id");
    var o4 := Push(o3, role, "role");
    var o5 := Push(o4, joined, "joined");
    var o6 := Push(o5, location, "location");
    PushFacts([], name, "name");
    PushFacts(o1, email, "email");
    PushFacts(o2, id, "member_id");
    PushFacts(o3, role, "role");
    PushFacts(o4, joined, "joined");
    PushFacts(o5, location, "location");
    if name {
      assert o1 == ["name"];
      assert o6[..|o5|][..|o4|][..|o3|][..|o2|][..|o1|] == ["name"];
    }
  }

  lemma PresentationFacts(keys: seq<string>)
    ensures NoDuplicates(Presentation(keys))
    ensures forall x :: x in Presentation(keys) ==> x in Presented
    ensures "name" in Presentation(keys) <==> AnyIn(NameKeys, keys)
    ensures AnyIn(NameKeys, keys) ==> Presentation(keys)[0] == "name"
  {
    PresentationOfDistinct(AnyIn(NameKeys, keys), AnyIn(EmailKeys, keys), AnyIn(IdKeys, keys),
                           AnyIn(RoleKeys, keys), AnyIn(JoinedKeys, keys), AnyIn(LocationKeys, keys));
    PresentationOfName(AnyIn(NameKeys, keys), AnyIn(EmailKeys, keys), AnyIn(IdKeys, keys),
                       AnyIn(RoleKeys, keys), AnyIn(JoinedKeys, keys), AnyIn(LocationKeys, keys));
  }

  /** `p => keys.has(p)` */
  function InKeys(keys: seq<string>): string -> bool
  {
    p => p in keys
  }

  /** The columns chosen before the fallback: the presentation columns, then the priority
      columns the first row has. */
  function Preferred(keys: seq<string>): seq<string>
  {
    Presentation(keys) + Filter(Priority, InKeys(keys))
  }

  /** The fallback's test: a key not yet chosen, not `id` or `ID`, while fewer than 8 are chosen. */
  function Admit(out: seq<string>, k: string): seq<string>
  {
    if k !in out && k != "id" && k != "ID" && |out| < 8 then out + [k] else out
  }

  /** The chosen columns after the fallback has looked at the keys `ks`. */
  function Fallback(out: seq<string>, ks: seq<string>): seq<string>
  {
    if ks == [] then out else Admit(Fallback(out, ks[..|ks| - 1]), ks[|ks| - 1])
  }

  /** `fields` for a table of `rowCount` rows whose first row has the keys `keys`, in order. */
  function Fields(rowCount: nat, keys: seq<string>): seq<string>
  {
    if rowCount == 0 then []
    else if |Preferred(keys)| < 6 then Fallback(Preferred(keys), keys)
    else Preferred(keys)
  }

  /** The presentation and priority columns share no name. */
  lemma ColumnListsFacts()
    ensures NoDuplicates(Priority)
    ensures forall x :: x in Presented ==> x !in Priority
    ensures "id" !in Presented && "ID" !in Presented && "id" !in Priority && "ID" !in Priority
  {
  }

  /** The fields as computed: the six conditional pushes, the priority loop and, when fewer
      than six columns were chosen, the fallback loop. */
  method ChooseFields(rowCount: nat, keys: seq<string>) returns (out: seq<string>)
    ensures out == Fields(rowCount, keys)
  {
    if rowCount == 0 {
      return [];
    }
    PresentationFacts(keys);
    out := PushPresentation(keys);
    out := PushPriority(keys, out);
    if |out| < 6 {
      out := PushFallback(keys, out);
    }
  }

  /** The six conditional pushes of the presentation columns. */
  method PushPresentation(keys: seq<string>) returns (out: seq<string>)
    ensures out == Presentation(keys)
  {
    out := [];
    if AnyIn(NameKeys, keys) { out := out + ["name"]; }
    if AnyIn(EmailKeys, keys) { out := out + ["email"]; }
    if AnyIn(IdKeys, keys) { out := out + ["member_id"]; }
    if AnyIn(RoleKeys, keys) { out := out + ["role"]; }
    if AnyIn(JoinedKeys, keys) { out := out + ["joined"]; }
    if AnyIn(LocationKeys, keys) { out := out + ["location"]; }
  }

  /** `for (const p of priority) if (keys.has(p) && !out.includes(p)) out.push(p)`; after the
      presentation columns the second test never fails. */
  method PushPriority(keys: seq<string>, start: seq<string>) returns (out: seq<string>)
    requires forall x :: x in start ==> x in Presented
    ensures out == start + Filter(Priority, InKeys(keys))
  {
    ColumnListsFacts();
    out := start;
    var j := 0;
    while j < |Priority|
      invariant 0 <= j <= |Priority|
      invariant out == start + Filter(Priority[..j], InKeys(keys))
    {
      PriorityStep(Priority, start, j, keys);
      var p := Priority[j];
      if p in keys && p !in out {
        out := out + [p];
      }
      j := j + 1;
    }
    assert Priority[..|Priority|] == Priority;
  }

  /** The next priority column is not yet chosen, and it is chosen exactly when the row has it. */
  lemma PriorityStep(priority: seq<string>, start: seq<string>, j: nat, keys: seq<string>)
    requires j < |priority| && NoDuplicates(priority)
    requires forall x :: x in start ==> x !in priority
    ensures priority[j] !in start + Filter(priority[..j], InKeys(keys))
    ensures Filter(priority[..j + 1], InKeys(keys))
            == Filter(priority[..j], InKeys(keys)) + (if priority[j] in keys then [priority[j]] else [])
  {
    assert priority[..j + 1] == priority[..j] + [priority[j]];
    FilterAppend(priority[..j], priority[j], InKeys(keys));
    FilterFacts(priority[..j], InKeys(keys));
    assert priority[j] !in priority[..j];
  }

  /** `for (const k of Object.keys(rows[0])) if (!out.includes(k) && !["id", "ID"].includes(k) && out.length < 8) out.push(k)` */
  method PushFallback(keys: seq<string>, start: seq<string>) returns (out: seq<string>)
    ensures out == Fallback(start, keys)
  {
    out := start;
    var i := 0;
    while i < |keys|
      invariant 0 <= i <= |keys|
      invariant out == Fallback(start, keys[..i])
    {
      assert keys[..i + 1][..i] == keys[..i];
      var k := keys[i];
      if k !in out && k != "id" && k != "ID" && |out| < 8 {
        out := out + [k];
      }
      i := i + 1;
    }
    assert keys[..|keys|] == keys;
  }

  /** The fallback keeps what was chosen in front, adds only keys of the row other than
      `id` and `ID`, never adds a column twice, and stops at 8. */
  lemma {:induction false} FallbackFacts(out: seq<string>, ks: seq<string>)
    ensures |out| <= |Fallback(out, ks)| && Fallback(out, ks)[..|out|] == out
    ensures forall c :: c in Fallback(out, ks) ==> c in out || (c in ks && c != "id" && c != "ID")
    ensures NoDuplicates(out) ==> NoDuplicates(Fallback(out, ks))
    ensures |out| <= 8 ==> |Fallback(out, ks)| <= 8
  {
    if ks != [] {
      FallbackFacts(out, ks[..|ks| - 1]);
      var prev := Fallback(out, ks[..|ks| - 1]);
      var k := ks[|ks| - 1];
      if k !in prev && k != "id" && k != "ID" && |prev| < 8 {
        assert (prev + [k])[..|out|] == prev[..|out|];
      }
    }
  }

  /** The preferred columns hold no column twice, never `id` or `ID`, and only presentation
      columns or keys of the first row; "name" is among them exactly when the row has a name
      key, and then it comes first. */
  lemma PreferredFacts(keys: seq<string>)
    ensures NoDuplicates(Preferred(keys))
    ensures forall c :: c in Preferred(keys) ==> (c in Presented || c in keys) && c != "id" && c != "ID"
    ensures "name" in Preferred(keys) <==> AnyIn(NameKeys, keys)
    ensures AnyIn(NameKeys, keys) ==> Preferred(keys)[0] == "name"
  {
    var a := Presentation(keys);
    var b := Filter(Priority, InKeys(keys));
    PresentationFacts(keys);
    ColumnListsFacts();
    FilterNoDuplicates(Priority, InKeys(keys));
    FilterFacts(Priority, InKeys(keys));
    forall i, j | 0 <= i < j < |a + b|
      ensures (a + b)[i] != (a + b)[j]
    {
      if i < |a| && j >= |a| {
        assert (a + b)[i] in Presented;
        assert (a + b)[j] in Priority;
      }
    }
    if "name" in a + b {
      assert "name" !in b;
      assert "name" in a;
    }
    if AnyIn(NameKeys, keys) {
      assert (a + b)[0] == a[0];
    }
  }

  /** The chosen columns: none without rows; "name" first exactly when the first row has a
      name key; no column twice; never `id` or `ID`; each one a presentation column or a key of
      the first row; the preferred columns in front; and at most 8 when the fallback ran. */
  lemma FieldsFacts(rowCount: nat, keys: seq<string>)
    ensures rowCount == 0 ==> Fields(rowCount, keys) == []
    ensures rowCount > 0 ==>
              (AnyIn(NameKeys, keys) <==> |Fields(rowCount, keys)| > 0 && Fields(rowCount, keys)[0] == "name")
    ensures NoDuplicates(Fields(rowCount, keys))
    ensures "id" !in Fields(rowCount, keys) && "ID" !in Fields(rowCount, keys)
    ensures forall c :: c in Fields(rowCount, keys) ==> c in Presented || c in keys
    ensures rowCount > 0 ==> |Preferred(keys)| <= |Fields(rowCount, keys)| && Fields(rowCount, keys)[..|Preferred(keys)|] == Preferred(keys)
    ensures |Preferred(keys)| < 6 ==> |Fields(rowCount, keys)| <= 8
  {
    var pre := Preferred(keys);
    PreferredFacts(keys);
    FallbackFacts(pre, keys);
    if rowCount > 0 {
      var out := Fields(rowCount, keys);
      if |pre| > 0 {
        assert out[..|pre|][0] == pre[0];
      }
    }
  }

  // ---------------------------------------------------------------------------
  // Headings and cells

  /** `\w` */
  predicate IsWordChar(c: char)
  {
    'a' <= c <= 'z' || 'A' <= c <= 'Z' || '0' <= c <= '9' || c == '_'
  }

  /** `\b\w` matches at `i`. */
  predicate StartsWord(s: string, i: int)
    requires 0 <= i < |s|
  {
    IsWordChar(s[i]) && (i == 0 || !IsWordChar(s[i - 1]))
  }

  /** `s.replace(/_/g, " ")` */
  function Spaced(s: string): (r: string)
    ensures |r| == |s| && forall i :: 0 <= i < |s| ==> r[i] == (if s[i] == '_' then ' ' else s[i])
  {
    seq(|s|, i requires 0 <= i < |s| => if s[i] == '_' then ' ' else s[i])
  }

  /** `s.replace(/\b\w/g, (c) => c.toUpperCase())` */
  function Capitalised(s: string): (r: string)
    ensures |r| == |s| && forall i :: 0 <= i < |s| ==> r[i] == (if StartsWord(s, i) then UpperChar(s[i]) else s[i])
  {
    seq(|s|, i requires 0 <= i < |s| => if StartsWord(s, i) then UpperChar(s[i]) else s[i])
  }

  /** `labelFor(field)` */
  function LabelFor(field: string): string
  {
    if field == "name" then "Member"
    else if field == "member_id" then "Member ID"
    else if field == "joined" then "Joined"
    else Capitalised(Spaced(field))
  }

  /** Three columns have fixed headings; any other heading is the field with each underscore
      turned into a space and no word left starting with a lower-case letter, every other
      character kept. */
  lemma LabelForMeaning(field: string)
    ensures LabelFor("name") == "Member" && LabelFor("member_id") == "Member ID" && LabelFor("joined") == "Joined"
    ensures field != "name" && field != "member_id" && field != "joined" ==>
              var heading := LabelFor(field);
              |heading| == |field| && '_' !in heading
              && forall i :: 0 <= i < |field| ==>
                   (field[i] == '_' ==> heading[i] == ' ')
                   && (StartsWord(Spaced(field), i) ==> !('a' <= heading[i] <= 'z'))
                   && (!StartsWord(Spaced(field), i) && field[i] != '_' ==> heading[i] == field[i])
  {
  }

  /** An example: `visit_per_week` is headed "Visit Per Week". */
  lemma LabelForExample()
    ensures LabelFor("visit_per_week") == "Visit Per Week"
  {
    var s := Spaced("visit_per_week");
    assert s == "visit per week";
    assert Capitalised(s) == "Visit Per Week";
  }

  /** `getValue(row, field)` */
  function CellValue(row: Row, field: string): Value
  {
    if field == "name" then Coalesce(Coalesce(Coalesce(Get(row, "name"), Get(row, "member_name")), Get(row, "full_name")), Str(""))
    else if field == "email" then Coalesce(Coalesce(Get(row, "email"), Get(row, "member_email")), Str(""))
    else if field == "member_id" then Coalesce(Coalesce(Coalesce(Get(row, "member_id"), Get(row, "id")), Get(row, "ID")), Str(""))
    else if field == "role" then Coalesce(Get(row, "role"), Str(if Truthy(Get(row, "is_trainer")) then "Trainer" else "Member"))
    else if field == "joined" then Coalesce(Coalesce(Coalesce(Get(row, "created_at"), Get(row, "joined_at")), Get(row, "date_joined")), Str(""))
    else if field == "location" then Coalesce(Coalesce(Get(row, "location"), Get(row, "city")), Str(""))
    else Coalesce(Get(row, field), Str(""))
  }

  /** A cell is never null or undefined: the first key of its column wins when the row holds
      a value for it, and a column none of whose keys has a value shows "" (the role column
      shows "Trainer" or "Member" instead). */
  lemma CellValueMeaning(row: Row, field: string)
    ensures !IsNullish(CellValue(row, field))
    ensures !IsNullish(Get(row, Aliases(field)[0])) ==> CellValue(row, field) == Get(row, Aliases(field)[0])
    ensures field != "role" && (forall k :: k in Aliases(field) ==> IsNullish(Get(row, k))) ==> CellValue(row, field) == Str("")
    ensures field == "role" && IsNullish(Get(row, "role")) ==>
              CellValue(row, field) == Str(if Truthy(Get(row, "is_trainer")) then "Trainer" else "Member")
  {
  }

  // ---------------------------------------------------------------------------
  // Pages

  const PageSize: nat := 5

  /** `Math.max(1, Math.ceil(n / 5))` */
  function TotalPages(n: nat): (t: nat)
    ensures t >= 1 && (t - 1) * PageSize <= n && (n <= t * PageSize)
    ensures n > 0 ==> (t - 1) * PageSize < n
  {
    if n == 0 then 1 else (n + PageSize - 1) / PageSize
  }

  /** `Math.min(Math.max(0, page), totalPages - 1)` */
  function CurrentPage(page: int, n: nat): (p: nat)
    ensures p < TotalPages(n)
    ensures 0 <= page < TotalPages(n) ==> p == page
  {
    var t := TotalPages(n);
    if page < 0 then 0 else if page > t - 1 then t - 1 else page
  }

  /** `rows.slice(currentPage * 5, currentPage * 5 + 5)` */
  function PageRows<T>(rows: seq<T>, page: int): (r: seq<T>)
    ensures |r| <= PageSize
    ensures rows != [] ==> r != []
  {
    var start := CurrentPage(page, |rows|) * PageSize;
    var end := if start + PageSize <= |rows| then start + PageSize else |rows|;
    rows[start..end]
  }

  /** Every row is shown, at position `j % 5` of page `j / 5`. */
  lemma PagesCover<T>(rows: seq<T>, j: nat)
    requires j < |rows|
    ensures PageRows(rows, j / PageSize)[j % PageSize] == rows[j]
  {
    var t := TotalPages(|rows|);
    assert j / PageSize < t;
    assert CurrentPage(j / PageSize, |rows|) == j / PageSize;
  }

  /** The page the table keeps in its state, moved by the four buttons. */
  class Pager {
    var page: int

    /** The stored page is never negative; it may exceed the last page after the rows shrink,
        which `CurrentPage` absorbs. */
    predicate Valid()
      reads this
    {
      page >= 0
    }

    constructor()
      ensures Valid() && page == 0
    {
      page := 0;
    }

    /** « First */
    method First()
      modifies this
      ensures Valid() && page == 0
    {
      page := 0;
    }

    /** ‹ Prev: one page back, not below 0. */
    method Prev()
      requires Valid()
      modifies this
      ensures Valid() && page == if old(page) > 0 then old(page) - 1 else 0
    {
      page := if page - 1 > 0 then page - 1 else 0;
    }

    /** Next ›: one page on, not past the last page of `n` rows. */
    method Next(n: nat)
      requires Valid()
      modifies this
      ensures Valid() && page < TotalPages(n)
      ensures page == if old(page) + 1 < TotalPages(n) then old(page) + 1 else TotalPages(n) - 1
    {
      var t := TotalPages(n);
      page := if t - 1 < page + 1 then t - 1 else page + 1;
    }

    /** Last »: the last page of `n` rows. */
    method Last(n: nat)
      modifies this
      ensures Valid() && page == TotalPages(n) - 1
    {
      page := TotalPages(n) - 1;
    }
  }
}

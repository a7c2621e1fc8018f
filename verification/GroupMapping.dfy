/** The text form of the directory's group-to-role mapping, and the role it gives a user
    (apps/api/src/modules/directory/directory.service.ts). */
module GroupMapping {
  import opened Common
  import opened Text

  datatype Role = User | Hcns | It | Admin

  function RoleText(role: Role): string {
    match role case User => "USER" case Hcns => "HCNS" case It => "IT" case Admin => "ADMIN"
  }

  function RoleOf(text: string): Option<Role> {
    if text == "ADMIN" then Some(Admin)
    else if text == "IT" then Some(It)
    else if text == "HCNS" then Some(Hcns)
    else if text == "USER" then Some(User)
    else None
  }

  function Priority(role: Role): nat {
    match role case User => 0 case Hcns => 1 case It => 2 case Admin => 3
  }

  type Mapping = map<string, Role>
  type Entry = (string, Role)

  // ---------------------------------------------------------------------------------------------
  // Parsing
  // ---------------------------------------------------------------------------------------------

  function DropReturn(line: string): string {
    if line != "" && line[|line| - 1] == '\r' then line[..|line| - 1] else line
  }

  /** The text between line feeds, without the carriage return in front of one. */
  function Lines(text: string): seq<string> {
    var parts := Split(text, '\n');
    seq(|parts|, i requires 0 <= i < |parts| => if i < |parts| - 1 then DropReturn(parts[i]) else parts[i])
  }

  lemma FirstLine(text: string, first: string, rest: string)
    requires text == first + "\n" + rest && '\n' !in first
    ensures Lines(text) == [DropReturn(first)] + Lines(rest)
  {
    SplitFirst(first, rest, '\n');
    hide Split, DropReturn;
  }

  /** Lines end at a line feed, with one carriage return before it or without; the last line keeps what it ends with. */
  lemma LinesMean(line: string, rest: string)
    requires '\n' !in line
    ensures Lines(line) == [line]
    ensures Lines(line + "\r\n" + rest) == [line] + Lines(rest)
    ensures (line == "" || line[|line| - 1] != '\r') ==> Lines(line + "\n" + rest) == [line] + Lines(rest)
  {
    SplitNone(line, '\n');
    hide Split;
    assert (line + "\r")[..|line|] == line;
    assert DropReturn(line + "\r") == line;
    assert line + "\r\n" + rest == (line + "\r") + "\n" + rest;
    FirstLine(line + "\r\n" + rest, line + "\r", rest);
    FirstLine(line + "\n" + rest, line, rest);
    assert Lines(line) == [line];
    hide Lines;
  }

  datatype Line = Blank | Invalid | Assign(name: string, role: Role)

  function ReadLine(line: string): Line {
    var parts := Split(line, '=');
    var name := Trim(parts[0]);
    if |parts| == 1 then
      if name == "" then Blank else Invalid
    else
      var upper := Upper(Trim(parts[1]));
      if name == "" && upper == "" then Blank
      else if name == "" || RoleOf(upper).None? then Invalid
      else Assign(name, RoleOf(upper).value)
  }

  /** The role a text names, in any letter case. */
  function NamedRole(text: string): Option<Role> {
    var plain := Lower(text);
    if plain == "admin" then Some(Admin) else if plain == "it" then Some(It) else if plain == "hcns" then Some(Hcns)
    else if plain == "user" then Some(User) else None
  }

  lemma UpperIsLower(text: string, name: string, plain: string)
    requires Upper(name) == name && Lower(name) == plain
    ensures Upper(text) == name <==> Lower(text) == plain
  {
    if Lower(text) == plain {
      assert |text| == |plain| == |name|;
      forall i | 0 <= i < |text|
        ensures Upper(text)[i] == name[i]
      {
        assert Lower(text)[i] == LowerChar(text[i]) == LowerChar(name[i]) && UpperChar(name[i]) == name[i];
      }
    } else if Upper(text) == name {
      LowerOfUpper(text);
    }
  }

  lemma RoleOfUpper(text: string)
    ensures RoleOf(Upper(text)) == NamedRole(text)
  {
    UpperIsLower(text, "ADMIN", "admin");
    UpperIsLower(text, "IT", "it");
    UpperIsLower(text, "HCNS", "hcns");
    UpperIsLower(text, "USER", "user");
    hide Lower, Upper;
  }

  /** What a line says: nothing when it is blank on both sides of the sign, an assignment when it has a name and one of
      the four roles, and else it is invalid. Whatever follows a second sign is not read. */
  lemma LineMeans(name: string, role: string, more: string)
    requires '=' !in name && '=' !in role && (more == "" || more[0] == '=')
    ensures ReadLine(name) == if Trim(name) == "" then Blank else Invalid
    ensures ReadLine(name + "=" + role + more) ==
      if Trim(name) != "" && NamedRole(Trim(role)).Some? then Assign(Trim(name), NamedRole(Trim(role)).value)
      else if Trim(name) == "" && Trim(role) == "" then Blank
      else Invalid
  {
    SplitNone(name, '=');
    SplitFirst(name, role + more, '=');
    assert name + "=" + (role + more) == name + "=" + role + more;
    var parts := Split(name + "=" + role + more, '=');
    FirstOfSplit(role, more);
    assert parts == [name] + Split(role + more, '=') && parts[1] == role;
    RoleOfUpper(Trim(role));
    assert |Upper(Trim(role))| == |Trim(role)|;
    hide Split, Trim, Upper, Lower, RoleOf, NamedRole;
  }

  lemma FirstOfSplit(first: string, more: string)
    requires '=' !in first && (more == "" || more[0] == '=')
    ensures Split(first + more, '=')[0] == first
  {
    if more == "" {
      assert first + more == first;
      SplitNone(first, '=');
    } else {
      assert more == "=" + more[1..] && first + more == first + "=" + more[1..];
      SplitFirst(first, more[1..], '=');
    }
  }

  /** Assigning the key `__proto__` of a JavaScript object to a string does nothing. */
  function Put(mapping: Mapping, name: string, role: Role): Mapping {
    if name == "__proto__" then mapping else mapping[name := role]
  }

  function Collect(lines: seq<string>, mapping: Mapping): Option<Mapping> {
    if lines == [] then Some(mapping)
    else match ReadLine(lines[0])
      case Blank => Collect(lines[1..], mapping)
      case Invalid => None
      case Assign(name, role) => Collect(lines[1..], Put(mapping, name, role))
  }

  function Parse(text: string): Option<Mapping> {
    Collect(Lines(text), map[])
  }

  method ReadMapping(text: string) returns (result: Option<Mapping>)
    ensures result == Parse(text)
  {
    var lines := Lines(text);
    var mapping: Mapping := map[];
    for i := 0 to |lines|
      invariant Collect(lines[i..], mapping) == Parse(text)
    {
      assert lines[i..][1..] == lines[i + 1..];
      match ReadLine(lines[i]) {
        case Blank =>
        case Invalid => return None;
        case Assign(name, role) => mapping := Put(mapping, name, role);
      }
    }
    result := Some(mapping);
  }

  /** The role of the last line that assigns a name. */
  function LastRole(lines: seq<string>, name: string): Option<Role> {
    if lines == [] then None
    else
      var later := LastRole(lines[1..], name);
      var first := ReadLine(lines[0]);
      if later.Some? then later
      else if first.Assign? && first.name == name then Some(first.role)
      else None
  }

  /** Accepted texts have no invalid line, and of several lines for one name the last counts. */
  lemma {:induction false} CollectIsLastAssignment(lines: seq<string>, mapping: Mapping, name: string)
    ensures Collect(lines, mapping).Some? <==> forall i | 0 <= i < |lines| :: !ReadLine(lines[i]).Invalid?
    ensures Collect(lines, mapping).Some? && LastRole(lines, name).Some? && name != "__proto__" ==>
      name in Collect(lines, mapping).value && Collect(lines, mapping).value[name] == LastRole(lines, name).value
    ensures Collect(lines, mapping).Some? && (LastRole(lines, name).None? || name == "__proto__") ==>
      (name in Collect(lines, mapping).value <==> name in mapping)
      && (name in mapping ==> Collect(lines, mapping).value[name] == mapping[name])
  {
    if lines != [] {
      hide ReadLine;
      var rest, first := lines[1..], ReadLine(lines[0]);
      assert forall i | 0 < i < |lines| :: lines[i] == rest[i - 1];
      CollectIsLastAssignment(rest, if first.Assign? then Put(mapping, first.name, first.role) else mapping, name);
    }
  }

  // ---------------------------------------------------------------------------------------------
  // Printing
  // ---------------------------------------------------------------------------------------------

  /** The entries of a mapping, in whatever order the runtime lists them. */
  ghost predicate Enumerates(entries: seq<Entry>, mapping: Mapping) {
    && (forall i, j :: 0 <= i < j < |entries| ==> entries[i].0 != entries[j].0)
    && (forall i :: 0 <= i < |entries| ==> entries[i].0 in mapping && mapping[entries[i].0] == entries[i].1)
    && (forall name | name in mapping :: exists i :: 0 <= i < |entries| && entries[i].0 == name)
  }

  function PrintLine(entry: Entry): string {
    entry.0 + " = " + RoleText(entry.1)
  }

  function PrintLines(entries: seq<Entry>): seq<string> {
    seq(|entries|, i requires 0 <= i < |entries| => PrintLine(entries[i]))
  }

  function Print(entries: seq<Entry>): string {
    Join(PrintLines(entries), "\n")
  }

  predicate Shows(line: string, entry: Entry) {
    var name, role := entry.0, entry.1;
    && |line| > |name| + 3 && line[..|name|] == name && line[|name|..|name| + 3] == " = "
    && line[|name| + 3..] ==
       if role == Admin then "ADMIN" else if role == It then "IT" else if role == Hcns then "HCNS" else "USER"
  }

  lemma LineShows(entry: Entry)
    ensures Shows(PrintLine(entry), entry)
    ensures '\n' !in entry.0 ==> '\n' !in PrintLine(entry)
  {
    assert entry.1.Admin? || entry.1.It? || entry.1.Hcns? || entry.1.User?;
  }

  /** One line for each entry: the name, an equals sign between blanks, and the role in capitals. */
  lemma PrintMeans(entries: seq<Entry>)
    requires entries != [] && forall entry | entry in entries :: '\n' !in entry.0
    ensures |Split(Print(entries), '\n')| == |entries|
    ensures forall i | 0 <= i < |entries| :: Shows(Split(Print(entries), '\n')[i], entries[i])
  {
    hide Split, Join, Shows, PrintLine;
    var lines := PrintLines(entries);
    forall k | 0 <= k < |lines| ensures '\n' !in lines[k] && Shows(lines[k], entries[k]) {
      assert entries[k] in entries;
      LineShows(entries[k]);
    }
    SplitOfJoin(lines, '\n');
  }

  /** What a parsed name looks like. */
  predicate Clean(name: string) {
    name != "" && Trimmed(name) && '=' !in name && '\n' !in name && name != "__proto__"
  }

  lemma ReadNameIsClean(line: string)
    requires '\n' !in line && ReadLine(line).Assign? && ReadLine(line).name != "__proto__"
    ensures Clean(ReadLine(line).name)
  {
    var parts := Split(line, '=');
    TrimIsTrimmed(parts[0]);
    assert parts[0] in parts;
    TrimKeepsOut(parts[0], '=');
    SplitKeepsOut(line, '=', '\n');
    TrimKeepsOut(parts[0], '\n');
  }

  lemma {:induction false} SplitKeepsOut(s: string, separator: char, c: char)
    requires c !in s
    ensures forall part :: part in Split(s, separator) ==> c !in part
  {
    if s != "" {
      SplitKeepsOut(s[1..], separator, c);
    }
  }

  lemma LinesHaveNoFeed(text: string)
    ensures forall i | 0 <= i < |Lines(text)| :: '\n' !in Lines(text)[i]
  {
    forall i | 0 <= i < |Lines(text)| ensures '\n' !in Lines(text)[i] {
      assert Split(text, '\n')[i] in Split(text, '\n');
    }
  }

  lemma {:induction false} CollectIsClean(lines: seq<string>, mapping: Mapping)
    requires forall i | 0 <= i < |lines| :: '\n' !in lines[i]
    requires forall name | name in mapping :: Clean(name)
    ensures Collect(lines, mapping).Some? ==> forall name | name in Collect(lines, mapping).value :: Clean(name)
  {
    if lines != [] {
      var read := ReadLine(lines[0]);
      if read.Assign? && read.name != "__proto__" {
        ReadNameIsClean(lines[0]);
      }
      CollectIsClean(lines[1..], if read.Assign? then Put(mapping, read.name, read.role) else mapping);
    }
  }

  lemma RoleOfRoleText(role: Role)
    ensures var text := RoleText(role);
      Trimmed(text) && Upper(text) == text && RoleOf(text) == Some(role) && text != "" && '=' !in text && '\n' !in text
      && text[|text| - 1] != '\r'
  {
    assert Upper(RoleText(role)) == RoleText(role);
  }

  lemma ReadOfPrintLine(entry: Entry)
    requires Clean(entry.0)
    ensures ReadLine(PrintLine(entry)) == Assign(entry.0, entry.1)
    ensures '\n' !in PrintLine(entry) && DropReturn(PrintLine(entry)) == PrintLine(entry)
  {
    var name, role := entry.0, RoleText(entry.1);
    RoleOfRoleText(entry.1);
    hide RoleText, RoleOf, Trim, Upper;
    assert PrintLine(entry) == (name + " ") + ['='] + (" " + role);
    SplitFirst(name + " ", " " + role, '=');
    SplitNone(" " + role, '=');
    TrimPadded(name);
    TrimPadded(role);
  }

  lemma LinesOfPrint(entries: seq<Entry>)
    requires forall i | 0 <= i < |entries| :: Clean(entries[i].0)
    ensures Lines(Print(entries)) == if entries == [] then [""] else PrintLines(entries)
  {
    var lines := PrintLines(entries);
    forall i | 0 <= i < |entries| ensures '\n' !in lines[i] && DropReturn(lines[i]) == lines[i] {
      ReadOfPrintLine(entries[i]);
    }
    if entries != [] {
      SplitOfJoin(lines, '\n');
    }
  }

  function PutAll(mapping: Mapping, entries: seq<Entry>): Mapping
    decreases |entries|
  {
    if entries == [] then mapping else PutAll(mapping[entries[0].0 := entries[0].1], entries[1..])
  }

  lemma {:induction false} CollectOfPrint(entries: seq<Entry>, mapping: Mapping)
    requires forall i | 0 <= i < |entries| :: Clean(entries[i].0)
    ensures Collect(PrintLines(entries), mapping) == Some(PutAll(mapping, entries))
    decreases |entries|
  {
    hide ReadLine, PrintLine;
    if entries != [] {
      ReadOfPrintLine(entries[0]);
      assert PrintLines(entries)[1..] == PrintLines(entries[1..]);
      CollectOfPrint(entries[1..], mapping[entries[0].0 := entries[0].1]);
    }
  }

  lemma {:induction false} PutAllOf(mapping: Mapping, entries: seq<Entry>, all: Mapping)
    requires forall i, j :: 0 <= i < j < |entries| ==> entries[i].0 != entries[j].0
    requires forall i :: 0 <= i < |entries| ==> entries[i].0 in all && all[entries[i].0] == entries[i].1
    requires forall name | name in mapping :: name in all && all[name] == mapping[name]
    requires forall name | name in all :: name in mapping || exists i :: 0 <= i < |entries| && entries[i].0 == name
    ensures PutAll(mapping, entries) == all
    decreases |entries|
  {
    if entries != [] {
      var rest := entries[1..];
      var next := mapping[entries[0].0 := entries[0].1];
      assert forall i | 0 < i < |entries| :: entries[i] == rest[i - 1];
      forall name | name in all ensures name in next || exists i :: 0 <= i < |rest| && rest[i].0 == name {
        if name !in mapping {
          var i :| 0 <= i < |entries| && entries[i].0 == name;
          if i > 0 {
            assert rest[i - 1].0 == name;
          }
        }
      }
      PutAllOf(next, rest, all);
    }
  }

  lemma ParseOfNothing()
    ensures Parse("") == Some(map[])
  {
    assert Lines("") == [""];
  }

  /** Whatever order the entries are listed in, the printed mapping parses back to itself. */
  lemma ParseOfPrint(text: string, mapping: Mapping, entries: seq<Entry>)
    requires Parse(text) == Some(mapping) && Enumerates(entries, mapping)
    ensures Parse(Print(entries)) == Some(mapping)
  {
    LinesHaveNoFeed(text);
    CollectIsClean(Lines(text), map[]);
    hide Lines, Clean, ReadLine;
    if entries == [] {
      assert mapping == map[];
      ParseOfNothing();
    } else {
      LinesOfPrint(entries);
      CollectOfPrint(entries, map[]);
      PutAllOf(map[], entries, mapping);
    }
  }

  // ---------------------------------------------------------------------------------------------
  // Roles
  // ---------------------------------------------------------------------------------------------

  predicate Matches(group: string, groups: seq<string>) {
    exists i :: 0 <= i < |groups|
      && (Lower(groups[i]) == Lower(group) || "cn=" + Lower(group) + "," <= Lower(groups[i]))
  }

  /** The texts that differ in letter case only. */
  predicate SameLetters(a: string, b: string) {
    |a| == |b| && forall i | 0 <= i < |a| :: LowerChar(a[i]) == LowerChar(b[i])
  }

  lemma SameLettersIff(a: string, b: string)
    ensures SameLetters(a, b) <==> Lower(a) == Lower(b)
  {
    if Lower(a) == Lower(b) {
      forall i | 0 <= i < |a|
        ensures LowerChar(a[i]) == LowerChar(b[i])
      {
        assert Lower(a)[i] == Lower(b)[i];
      }
    }
  }

  /** A group name stands for a user's group that has this name, or whose distinguished name starts with it. */
  lemma MatchMeans(group: string, groups: seq<string>)
    ensures Matches(group, groups) <==> exists i | 0 <= i < |groups| ::
      || SameLetters(groups[i], group)
      || (|groups[i]| >= |group| + 4 && SameLetters(groups[i][..|group| + 4], "cn=" + group + ","))
  {
    forall i | 0 <= i < |groups|
      ensures Lower(groups[i]) == Lower(group) <==> SameLetters(groups[i], group)
      ensures "cn=" + Lower(group) + "," <= Lower(groups[i]) <==>
        |groups[i]| >= |group| + 4 && SameLetters(groups[i][..|group| + 4], "cn=" + group + ",")
    {
      SameLettersIff(groups[i], group);
      StartsWithName(groups[i], group);
    }
    hide SameLetters, Lower;
  }

  lemma StartsWithName(text: string, group: string)
    ensures "cn=" + Lower(group) + "," <= Lower(text) <==>
      |text| >= |group| + 4 && SameLetters(text[..|group| + 4], "cn=" + group + ",")
  {
    var whole := "cn=" + group + ",";
    assert Lower(whole) == "cn=" + Lower(group) + ",";
    assert |Lower(text)| == |text| && |Lower(whole)| == |group| + 4;
    if |text| >= |group| + 4 {
      SameLettersIff(text[..|group| + 4], whole);
      assert Lower(text)[..|group| + 4] == Lower(text[..|group| + 4]);
    }
  }

  ghost predicate Grants(mapping: Mapping, groups: seq<string>, role: Role) {
    exists name :: name in mapping && mapping[name] == role && Matches(name, groups)
  }

  /** The best role among the matched groups; no order of the mapping enters into it. */
  ghost function BestRole(mapping: Mapping, groups: seq<string>): Role {
    if Grants(mapping, groups, Admin) then Admin
    else if Grants(mapping, groups, It) then It
    else if Grants(mapping, groups, Hcns) then Hcns
    else User
  }

  method MappedRole(ghost mapping: Mapping, entries: seq<Entry>, groups: seq<string>) returns (role: Role)
    requires Enumerates(entries, mapping)
    ensures role == BestRole(mapping, groups)
  {
    role := User;
    for i := 0 to |entries|
      invariant role == User || Grants(mapping, groups, role)
      invariant forall k :: 0 <= k < i && Matches(entries[k].0, groups) ==> Priority(entries[k].1) <= Priority(role)
    {
      var matched := Matches(entries[i].0, groups);
      if matched && Priority(entries[i].1) > Priority(role) {
        role := entries[i].1;
      }
    }
    forall better | Grants(mapping, groups, better) ensures Priority(better) <= Priority(role) {
      var name :| name in mapping && mapping[name] == better && Matches(name, groups);
    }
  }

  /** The best of the granted roles: an administrator before IT, IT before HCNS, and a user when none is granted. */
  lemma BestRoleMeans(mapping: Mapping, groups: seq<string>, role: Role)
    ensures BestRole(mapping, groups) == role <==>
      && (role != User ==> exists name :: name in mapping && mapping[name] == role && Matches(name, groups))
      && forall name | name in mapping && Matches(name, groups) :: !(
           || (mapping[name] == Admin && role != Admin)
           || (mapping[name] == It && role != Admin && role != It)
           || (mapping[name] == Hcns && role == User))
  {
    hide Matches;
    if BestRole(mapping, groups) == role {
      forall name | name in mapping && Matches(name, groups)
        ensures Grants(mapping, groups, mapping[name])
      {
      }
    } else if role != User && Grants(mapping, groups, role) {
      var better :| better in mapping && mapping[better] == BestRole(mapping, groups) && Matches(better, groups);
    }
  }

  /** A user in more groups never ends up with a lesser role. */
  lemma MoreGroupsNoLesserRole(mapping: Mapping, groups: seq<string>, more: seq<string>)
    ensures Priority(BestRole(mapping, groups)) <= Priority(BestRole(mapping, groups + more))
  {
    forall name | Matches(name, groups) ensures Matches(name, groups + more) {
      var i :| 0 <= i < |groups| && (Lower(groups[i]) == Lower(name) || "cn=" + Lower(name) + "," <= Lower(groups[i]));
      assert (groups + more)[i] == groups[i];
    }
  }
}

/** The TypeScript declaration file of a sprite (`generateEnumMembers` and `generateSpriteDts` in
    plugin/generator.ts): a union type of the class names, an enum from identifier-safe keys to
    class names, and the declarations of the runtime module's other exports. */
module Declarations {
  import opened Wrappers
  import opened Text
  import opened Dict
  import opened Sprite

  /** `SpriteDtsOptions`: whether to wrap the file in `declare module`, and the names of the enum
      and of the union type. */
  datatype DtsOptions = DtsOptions(asModule: bool, enumName: string, classUnionName: string)

  /** The characters of `[a-zA-Z0-9_]`. */
  predicate IsWordChar(c: char) {
    ('a' <= c <= 'z') || ('A' <= c <= 'Z') || ('0' <= c <= '9') || c == '_'
  }

  /** `.replace(/[^a-zA-Z0-9_]/g, "")` */
  function StripNonWord(s: string): (r: string)
    ensures forall i :: 0 <= i < |r| ==> IsWordChar(r[i])
    ensures (forall i :: 0 <= i < |s| ==> IsWordChar(s[i])) ==> r == s
    decreases |s|
  {
    if |s| == 0 then ""
    else (if IsWordChar(s[0]) then [s[0]] else "") + StripNonWord(s[1..])
  }

  /** The two passes the generator runs over an icon name before case conversion: hyphens and
      spaces become underscores, then every other character outside `[a-zA-Z0-9_]` is dropped. */
  function Sanitize(name: string): string {
    StripNonWord(ReplaceAll(ReplaceAll(name, '-', "_"), ' ', "_"))
  }

  /** What one character of an icon name becomes. */
  function SanitizeChar(c: char): string {
    if c == '-' || c == ' ' then "_"
    else if IsWordChar(c) then [c]
    else ""
  }

  /** The same transformation, character by character in one pass. */
  function SanitizeByChar(name: string): string
    decreases |name|
  {
    if |name| == 0 then "" else SanitizeChar(name[0]) + SanitizeByChar(name[1..])
  }

  lemma {:induction false} StripAppend(a: string, b: string)
    ensures StripNonWord(a + b) == StripNonWord(a) + StripNonWord(b)
    decreases |a|
  {
    if |a| == 0 {
      assert a + b == b;
    } else {
      assert (a + b)[0] == a[0];
      assert (a + b)[1..] == a[1..] + b;
      StripAppend(a[1..], b);
    }
  }

  /** The two passes agree with the one-pass reading. */
  lemma {:induction false} SanitizeIsByChar(name: string)
    ensures Sanitize(name) == SanitizeByChar(name)
    decreases |name|
  {
    if |name| != 0 {
      var c := name[0];
      var r1 := ReplaceAll(name, '-', "_");
      var t1 := ReplaceAll(name[1..], '-', "_");
      assert r1 == (if c == '-' then "_" else [c]) + t1;
      var r2 := ReplaceAll(r1, ' ', "_");
      var t2 := ReplaceAll(t1, ' ', "_");
      var h := if c == '-' || c == ' ' then "_" else [c];
      ReplaceAppend(if c == '-' then "_" else [c], t1, ' ', "_");
      assert ReplaceAll(if c == '-' then "_" else [c], ' ', "_") == h;
      assert r2 == h + t2;
      StripAppend(h, t2);
      assert StripNonWord(h) == SanitizeChar(c);
      SanitizeIsByChar(name[1..]);
    }
  }

  /** The sanitized name holds only `[a-zA-Z0-9_]`, leaves a name already made of those alone,
      and so is idempotent. */
  lemma SanitizeSpec(name: string)
    ensures forall i :: 0 <= i < |Sanitize(name)| ==> IsWordChar(Sanitize(name)[i])
    ensures (forall i :: 0 <= i < |name| ==> IsWordChar(name[i])) ==> Sanitize(name) == name
    ensures Sanitize(Sanitize(name)) == Sanitize(name)
  {
    forall i | 0 <= i < |name| && IsWordChar(name[i])
      ensures name[i] != '-' && name[i] != ' '
    {
    }
    ReplaceNoop(name, '-', "_");
    ReplaceNoop(ReplaceAll(name, '-', "_"), ' ', "_");
    var s := Sanitize(name);
    ReplaceNoop(s, '-', "_");
    ReplaceNoop(ReplaceAll(s, '-', "_"), ' ', "_");
  }

  /** The enum key of an icon: its sanitized name in PascalCase. */
  function EnumKey(js: Foreign, name: string): string {
    js.pascalCase(Sanitize(name))
  }

  /** The enum key of every icon, in icon order. */
  function EnumKeys(js: Foreign, entries: seq<SvgFile>): (r: seq<string>)
    ensures |r| == |entries|
  {
    seq(|entries|, i requires 0 <= i < |entries| => EnumKey(js, entries[i].name))
  }

  /** `generateEnumMembers`: each icon's key mapped to its class name; a later icon with the same
      key overwrites an earlier one in place. */
  function EnumMembers(js: Foreign, prefix: string, entries: seq<SvgFile>): Dict<string, string>
    decreases |entries|
  {
    if |entries| == 0 then []
    else
      var last := entries[|entries| - 1];
      Put(EnumMembers(js, prefix, entries[..|entries| - 1]), EnumKey(js, last.name), prefix + last.name)
  }

  /** The members never repeat a key. */
  lemma {:induction false} EnumMembersDistinct(js: Foreign, prefix: string, entries: seq<SvgFile>)
    ensures DistinctKeys(EnumMembers(js, prefix, entries))
    decreases |entries|
  {
    if |entries| != 0 {
      var n := |entries| - 1;
      EnumMembersDistinct(js, prefix, entries[..n]);
      PutDistinct(EnumMembers(js, prefix, entries[..n]), EnumKey(js, entries[n].name), prefix + entries[n].name);
    }
  }

  /** The last icon whose key is `k`, if any. */
  function LastWithKey(js: Foreign, entries: seq<SvgFile>, k: string): (r: Option<nat>)
    ensures r.None? ==> forall i :: 0 <= i < |entries| ==> EnumKey(js, entries[i].name) != k
    ensures r.Some? ==> && r.value < |entries| && EnumKey(js, entries[r.value].name) == k
                        && forall j :: r.value < j < |entries| ==> EnumKey(js, entries[j].name) != k
    decreases |entries|
  {
    if |entries| == 0 then None
    else if EnumKey(js, entries[|entries| - 1].name) == k then Some(|entries| - 1)
    else
      var r := LastWithKey(js, entries[..|entries| - 1], k);
      assert forall i :: 0 <= i < |entries| - 1 ==> entries[..|entries| - 1][i] == entries[i];
      r
  }

  /** One more icon puts its class under its key and leaves the other keys alone. */
  lemma EnumMembersLast(js: Foreign, prefix: string, entries: seq<SvgFile>, k: string)
    requires |entries| != 0
    ensures var last := entries[|entries| - 1];
            Get(EnumMembers(js, prefix, entries), k) ==
              if EnumKey(js, last.name) == k then Some(prefix + last.name)
              else Get(EnumMembers(js, prefix, entries[..|entries| - 1]), k)
  {
    var n := |entries| - 1;
    PutGet(EnumMembers(js, prefix, entries[..n]), EnumKey(js, entries[n].name), prefix + entries[n].name, k);
  }

  /** A key reads the class of the last icon with that key, and is missing when no icon has it. */
  lemma {:induction false} EnumMembersGet(js: Foreign, prefix: string, entries: seq<SvgFile>, k: string)
    ensures Get(EnumMembers(js, prefix, entries), k) ==
              match LastWithKey(js, entries, k)
              case None => None
              case Some(i) => Some(prefix + entries[i].name)
    decreases |entries|
  {
    if |entries| != 0 {
      var n := |entries| - 1;
      EnumMembersLast(js, prefix, entries, k);
      EnumMembersGet(js, prefix, entries[..n], k);
      if EnumKey(js, entries[n].name) != k {
        var r := LastWithKey(js, entries[..n], k);
        if r.Some? {
          assert entries[..n][r.value] == entries[r.value];
        }
      }
    }
  }

  /** The distinct elements of a list, each where it first occurs. */
  function Dedup(s: seq<string>): seq<string>
    decreases |s|
  {
    if |s| == 0 then []
    else
      var d := Dedup(s[..|s| - 1]);
      if s[|s| - 1] in d then d else d + [s[|s| - 1]]
  }

  /** Deduplicating keeps every element. */
  lemma {:induction false} DedupIn(s: seq<string>, x: string)
    ensures x in Dedup(s) <==> x in s
    decreases |s|
  {
    if |s| != 0 {
      var n := |s| - 1;
      DedupIn(s[..n], x);
      DedupIn(s[..n], s[n]);
      assert s == s[..n] + [s[n]];
    }
  }

  /** The member keys are the icons' keys without repetitions, in order of first occurrence. */
  lemma {:induction false} EnumMembersKeys(js: Foreign, prefix: string, entries: seq<SvgFile>)
    ensures Keys(EnumMembers(js, prefix, entries)) == Dedup(EnumKeys(js, entries))
    decreases |entries|
  {
    if |entries| != 0 {
      var n := |entries| - 1;
      var front := entries[..n];
      var d := EnumMembers(js, prefix, front);
      var x := EnumKey(js, entries[n].name);
      EnumMembersKeys(js, prefix, front);
      PutKeys(d, x, prefix + entries[n].name);
      var ks := EnumKeys(js, entries);
      assert ks[..n] == EnumKeys(js, front);
      assert ks[n] == x;
    }
  }

  /** The i-th member: the i-th distinct key and the class of the last icon with that key. */
  lemma EnumMember(js: Foreign, prefix: string, entries: seq<SvgFile>, i: nat)
    requires i < |EnumMembers(js, prefix, entries)|
    ensures var keys := Dedup(EnumKeys(js, entries));
            && |EnumMembers(js, prefix, entries)| == |keys|
            && LastWithKey(js, entries, keys[i]).Some?
            && EnumMembers(js, prefix, entries)[i] ==
                 (keys[i], prefix + entries[LastWithKey(js, entries, keys[i]).value].name)
  {
    var members := EnumMembers(js, prefix, entries);
    EnumMembersKeys(js, prefix, entries);
    EnumMembersDistinct(js, prefix, entries);
    GetDistinct(members, i);
    EnumMembersGet(js, prefix, entries, members[i].0);
  }

  /** The comment block at the top of the file; it ends with an empty line. */
  function HeaderLines(js: Foreign, sourceDirectory: string, count: nat): seq<string> {
    [ "/*",
      " * DO NOT MODIFY THIS FILE!",
      " *",
      " * This file has been auto generated by the svg-sprite generator.",
      " * Sprite source directory: " + sourceDirectory,
      " * Sprite count: " + js.numberToString(count as real),
      " */",
      "" ]
  }

  /** A class name as a string literal type. */
  function Quoted(prefix: string, e: SvgFile): string {
    "\"" + ClassName(prefix, e) + "\""
  }

  /** The union of the class names: each one appended after ` | `, then the first three
      characters dropped. */
  function UnionText(prefix: string, entries: seq<SvgFile>): string {
    Substr(Concat(seq(|entries|, i requires 0 <= i < |entries| => " | " + Quoted(prefix, entries[i]))), 3)
  }

  /** The union is the class names joined with ` | `, and empty without icons. */
  lemma UnionIsJoin(prefix: string, entries: seq<SvgFile>)
    ensures UnionText(prefix, entries) == Join(seq(|entries|, i requires 0 <= i < |entries| => Quoted(prefix, entries[i])), " | ")
  {
    var quoted := seq(|entries|, i requires 0 <= i < |entries| => Quoted(prefix, entries[i]));
    var pieces := seq(|entries|, i requires 0 <= i < |entries| => " | " + Quoted(prefix, entries[i]));
    PrefixedConcat(quoted, pieces, " | ");
  }

  /** Concatenating `sep + part` for every part is the separator followed by the join, if any. */
  lemma {:induction false} PrefixedConcat(parts: seq<string>, pieces: seq<string>, sep: string)
    requires |pieces| == |parts|
    requires forall i :: 0 <= i < |parts| ==> pieces[i] == sep + parts[i]
    ensures Substr(Concat(pieces), |sep|) == Join(parts, sep)
    ensures |parts| > 0 ==> Concat(pieces) == sep + Join(parts, sep)
    decreases |parts|
  {
    if |parts| == 0 {
    } else {
      PrefixedConcat(parts[1..], pieces[1..], sep);
      ConcatCons(pieces);
      if |parts| == 1 {
        assert Concat(pieces[1..]) == "";
        assert Concat(pieces) == sep + parts[0];
      } else {
        assert Concat(pieces) == sep + parts[0] + (sep + Join(parts[1..], sep));
      }
      var t := Concat(pieces);
      assert t == sep + Join(parts, sep);
      assert t[|sep|..] == Join(parts, sep);
    }
  }

  /** One enum member. */
  function MemberLine(m: (string, string)): string {
    "  " + m.0 + " = \"" + m.1 + "\","
  }

  /** The declarations, line by line, before any module wrapping. */
  function BodyLines(o: DtsOptions, prefix: string, entries: seq<SvgFile>, members: Dict<string, string>): seq<string> {
    [ "export type " + o.classUnionName + " = " + UnionText(prefix, entries) + ";",
      "",
      "export enum " + o.enumName + " {" ] +
    seq(|members|, i requires 0 <= i < |members| => MemberLine(members[i])) +
    [ "}",
      "",
      "export const spriteEntries: {",
      "  id: string;",
      "  className: string;",
      "  width: number;",
      "  height: number;",
      "  xOffset: number;",
      "  yOffset: number;",
      "}[];",
      "",
      "export const spriteUrl: string;",
      "export const classList: string[];",
      "",
      "export const spriteWidth: number;",
      "export const spriteHeight: number;" ]
  }

  /** Every line indented by two spaces. */
  function Indent(lines: seq<string>): (r: seq<string>)
    ensures |r| == |lines|
  {
    seq(|lines|, i requires 0 <= i < |lines| => "  " + lines[i])
  }

  /** The line that opens the module declaration. */
  function ModuleOpen(modulePrefix: string, moduleName: string): string {
    "declare module \"" + modulePrefix + moduleName + "\" {"
  }

  /** `generateSpriteDts` */
  function SpriteDts(js: Foreign, o: DtsOptions, moduleName: string, sprite: GeneratedSprite,
                     prefix: string, modulePrefix: string, sourceDirectory: string): string
  {
    var header := HeaderLines(js, sourceDirectory, |sprite.entries|);
    var lines := BodyLines(o, prefix, sprite.entries, EnumMembers(js, prefix, sprite.entries));
    if o.asModule then
      Join(header, "\n") + ModuleOpen(modulePrefix, moduleName) + "\n" + Join(Indent(lines), "\n") + "\n" + "}"
    else
      Join(header, "\n") + Join(lines, "\n")
  }

  /** The file's lines: the comment block (its closing empty line joins the next line), then
      either the declarations or the `declare module` line, the declarations indented, and `}`. */
  lemma SpriteDtsLines(js: Foreign, o: DtsOptions, moduleName: string, sprite: GeneratedSprite,
                       prefix: string, modulePrefix: string, sourceDirectory: string)
    ensures var header := HeaderLines(js, sourceDirectory, |sprite.entries|);
            var members := EnumMembers(js, prefix, sprite.entries);
            var lines := BodyLines(o, prefix, sprite.entries, members);
            && |lines| == |members| + 19
            && SpriteDts(js, o, moduleName, sprite, prefix, modulePrefix, sourceDirectory) ==
                 Join(header[..7] +
                      (if o.asModule then [ModuleOpen(modulePrefix, moduleName)] + Indent(lines) + ["}"]
                       else lines), "\n")
  {
    var header := HeaderLines(js, sourceDirectory, |sprite.entries|);
    var members := EnumMembers(js, prefix, sprite.entries);
    var lines := BodyLines(o, prefix, sprite.entries, members);
    assert header == header[..7] + [""];
    if o.asModule {
      WrappedLines(header[..7], ModuleOpen(modulePrefix, moduleName), Indent(lines));
    } else {
      HeaderThenLines(header[..7], lines);
    }
  }

  /** A list ending in an empty line, joined and followed by the join of more lines. */
  lemma HeaderThenLines(top: seq<string>, lines: seq<string>)
    requires |top| > 0 && |lines| > 0
    ensures Join(top + [""], "\n") + Join(lines, "\n") == Join(top + lines, "\n")
  {
    JoinSnoc(top, "\n", "");
    JoinAppend(top, lines, "\n");
  }

  /** The same, with the lines wrapped between an opening line and `}`. */
  lemma WrappedLines(top: seq<string>, open: string, lines: seq<string>)
    requires |top| > 0 && |lines| > 0
    ensures Join(top + [""], "\n") + open + "\n" + Join(lines, "\n") + "\n" + "}" ==
              Join(top + ([open] + lines + ["}"]), "\n")
  {
    var nl := "\n";
    var jt := Join(top, nl);
    var jl := Join(lines, nl);
    var w := [open] + lines + ["}"];
    JoinSnoc(top, nl, "");
    assert Join(top + [""], nl) == jt + nl;
    JoinAppend([open], lines, nl);
    assert Join([open] + lines, nl) == open + nl + jl;
    JoinAppend([open] + lines, ["}"], nl);
    assert Join(w, nl) == open + nl + jl + nl + "}";
    JoinAppend(top, w, nl);
    assert Join(top + w, nl) == jt + nl + (open + nl + jl + nl + "}");
  }
}

/** The JavaScript module a sprite compiles to (`generateSpriteJs` in plugin/generator.ts): a
    two-way enum of class names, one frozen record per icon, the sprite URL, the class list and
    the sheet size, all exported. */
module Runtime {
  import opened Wrappers
  import opened Text
  import opened Dict
  import opened Sprite
  import opened Declarations

  /** The statement that fills both directions of one enum member. */
  function EnumLine(m: (string, string)): string {
    "EnumClassList[EnumClassList[\"" + m.0 + "\"] = \"" + m.1 + "\"] = \"" + m.0 + "\";"
  }

  /** The object those statements build, run in order: `obj[key] = value`, then `obj[value] = key`. */
  function EnumObject(members: Dict<string, string>): Dict<string, string>
    decreases |members|
  {
    if |members| == 0 then []
    else
      var m := members[|members| - 1];
      Put(Put(EnumObject(members[..|members| - 1]), m.0, m.1), m.1, m.0)
  }

  /** No string is both a key and a value, and no value is repeated. */
  predicate Separated(members: Dict<string, string>) {
    && (forall i, j :: 0 <= i < |members| && 0 <= j < |members| ==> members[i].0 != members[j].1)
    && (forall i, j :: 0 <= i < j < |members| ==> members[i].1 != members[j].1)
  }

  /** When keys and class names are kept apart, the runtime enum maps each key to its class name
      and each class name back to its key, and holds nothing else. */
  lemma {:induction false} EnumObjectTwoWay(members: Dict<string, string>, s: string)
    requires DistinctKeys(members) && Separated(members)
    ensures Get(EnumObject(members), s).Some? <==>
              exists i :: 0 <= i < |members| && (members[i].0 == s || members[i].1 == s)
    ensures forall i :: 0 <= i < |members| && members[i].0 == s ==> Get(EnumObject(members), s) == Some(members[i].1)
    ensures forall i :: 0 <= i < |members| && members[i].1 == s ==> Get(EnumObject(members), s) == Some(members[i].0)
    decreases |members|
  {
    if |members| != 0 {
      var n := |members| - 1;
      var front := members[..n];
      var m := members[n];
      var inner := Put(EnumObject(front), m.0, m.1);
      assert DistinctKeys(front) && Separated(front) by {
        assert forall i :: 0 <= i < n ==> front[i] == members[i];
      }
      EnumObjectTwoWay(front, s);
      EnumObjectStep(front, m, s);
      forall i | 0 <= i < n
        ensures front[i] == members[i]
      {
      }
    }
  }

  /** One more member written into the object. */
  lemma EnumObjectStep(front: Dict<string, string>, m: (string, string), s: string)
    ensures Get(EnumObject(front + [m]), s) ==
              if s == m.1 then Some(m.0)
              else if s == m.0 then Some(m.1)
              else Get(EnumObject(front), s)
  {
    var members := front + [m];
    assert members[..|members| - 1] == front;
    var inner := Put(EnumObject(front), m.0, m.1);
    PutGet(inner, m.1, m.0, s);
    PutGet(EnumObject(front), m.0, m.1, s);
  }

  /** The eight lines of one icon's frozen record. */
  function EntryLines(js: Foreign, prefix: string, e: SvgFile): (r: seq<string>)
    ensures |r| == 8
  {
    [ "  Object.freeze({",
      "    id: \"" + e.name + "\",",
      "    className: \"" + ClassName(prefix, e) + "\",",
      "    width: " + js.numberToString(e.bounds.w) + ",",
      "    height: " + js.numberToString(e.bounds.h) + ",",
      "    xOffset: " + js.numberToString(e.bounds.x) + ",",
      "    yOffset: " + js.numberToString(e.bounds.y) + ",",
      "  }),"]
  }

  /** The records of all icons, in icon order. */
  function EntriesLines(js: Foreign, prefix: string, entries: seq<SvgFile>): (r: seq<string>)
    decreases |entries|
  {
    if |entries| == 0 then []
    else EntriesLines(js, prefix, entries[..|entries| - 1]) + EntryLines(js, prefix, entries[|entries| - 1])
  }

  /** Icon `j`'s record is lines `8 * j` to `8 * j + 7`. */
  lemma {:induction false} EntriesLinesAt(js: Foreign, prefix: string, entries: seq<SvgFile>, j: nat)
    requires j < |entries|
    ensures |EntriesLines(js, prefix, entries)| == 8 * |entries|
    ensures EntriesLines(js, prefix, entries)[8 * j .. 8 * j + 8] == EntryLines(js, prefix, entries[j])
    decreases |entries|
  {
    var n := |entries| - 1;
    var front := EntriesLines(js, prefix, entries[..n]);
    var last := EntryLines(js, prefix, entries[n]);
    assert EntriesLines(js, prefix, entries) == front + last;
    if n > 0 {
      EntriesLinesAt(js, prefix, entries[..n], if j < n then j else 0);
    }
    assert |front| == 8 * n;
    if j < n {
      assert entries[..n][j] == entries[j];
      assert (front + last)[8 * j .. 8 * j + 8] == front[8 * j .. 8 * j + 8];
    } else {
      assert (front + last)[8 * j .. 8 * j + 8] == last;
    }
  }

  /** One class name as the generator writes it into the class list, comma and space included. */
  function ClassItem(prefix: string, e: SvgFile): string {
    "\"" + ClassName(prefix, e) + "\", "
  }

  /** `[${entries.map(...)}]`: the template literal joins the array with commas. */
  function ClassListLine(prefix: string, entries: seq<SvgFile>): string {
    "let ClassList = [" + Join(seq(|entries|, i requires 0 <= i < |entries| => ClassItem(prefix, entries[i])), ",") + "];"
  }

  /** The class list literal separates consecutive class names by `, ,`, which leaves an empty
      slot (a hole) between every two names, and ends with `, ]`. */
  lemma ClassListHoles(prefix: string, entries: seq<SvgFile>)
    requires |entries| > 0
    ensures ClassListLine(prefix, entries) ==
              "let ClassList = [" + Join(seq(|entries|, i requires 0 <= i < |entries| => Quoted(prefix, entries[i])), ", ,") + ", ];"
  {
    var items := seq(|entries|, i requires 0 <= i < |entries| => ClassItem(prefix, entries[i]));
    var quoted := seq(|entries|, i requires 0 <= i < |entries| => Quoted(prefix, entries[i]));
    ItemsJoin(items, quoted);
    assert ", ," == ", " + ",";
  }

  /** Joining `q + ", "` with `,` is joining `q` with `, ,` and ending with `, `. */
  lemma {:induction false} ItemsJoin(items: seq<string>, quoted: seq<string>)
    requires |items| == |quoted| > 0
    requires forall i :: 0 <= i < |items| ==> items[i] == quoted[i] + ", "
    ensures Join(items, ",") == Join(quoted, ", ,") + ", "
    decreases |items|
  {
    if |items| > 1 {
      ItemsJoin(items[1..], quoted[1..]);
      assert Join(items, ",") == quoted[0] + ", " + "," + (Join(quoted[1..], ", ,") + ", ");
      assert Join(quoted, ", ,") == quoted[0] + ", ," + Join(quoted[1..], ", ,");
      assert ", " + "," == ", ,";
    }
  }

  /** The enum statements, one per member in member order. */
  function EnumLines(members: Dict<string, string>): (r: seq<string>)
    ensures |r| == |members|
  {
    seq(|members|, i requires 0 <= i < |members| => EnumLine(members[i]))
  }

  /** The statements after the records. */
  function TailLines(js: Foreign, o: DtsOptions, sprite: GeneratedSprite, publicUrl: string, prefix: string): (r: seq<string>)
    ensures |r| == 13
  {
    [ "];",
      "",
      "let SpriteUrl = decodeURIComponent(\"" + js.encodeUriComponent(publicUrl) + "\");",
      "",
      ClassListLine(prefix, sprite.entries),
      "",
      "Object.defineProperty(exports, \"__esModule\", { value: true });",
      "exports." + o.enumName + " = Object.freeze(EnumClassList);",
      "exports.spriteUrl = SpriteUrl;",
      "exports.classList = Object.freeze(ClassList);",
      "exports.spriteEntries = Object.freeze(SpriteEntries);",
      "exports.spriteWidth = " + js.numberToString(sprite.width) + ";",
      "exports.spriteHeight = " + js.numberToString(sprite.height) + ";" ]
  }

  /** The lines of the module. */
  function RuntimeLines(js: Foreign, o: DtsOptions, sprite: GeneratedSprite, publicUrl: string, prefix: string): seq<string> {
    ["let EnumClassList = {};"] +
    EnumLines(EnumMembers(js, prefix, sprite.entries)) +
    ["", "let SpriteEntries = ["] +
    EntriesLines(js, prefix, sprite.entries) +
    TailLines(js, o, sprite, publicUrl, prefix)
  }

  /** `generateSpriteJs` */
  function SpriteJs(js: Foreign, o: DtsOptions, sprite: GeneratedSprite, publicUrl: string, prefix: string): string {
    Join(RuntimeLines(js, o, sprite, publicUrl, prefix), "\n")
  }

  /** Positions in a list assembled from five parts. */
  lemma FiveParts(a: seq<string>, e: seq<string>, b: seq<string>, r: seq<string>, t: seq<string>, lo: nat, hi: nat)
    requires |a| == 1 && |b| == 2 && lo <= hi <= |r|
    ensures var lines := a + e + b + r + t;
            && |lines| == 3 + |e| + |r| + |t|
            && (forall i :: 0 <= i < |e| ==> lines[1 + i] == e[i])
            && lines[3 + |e| + lo .. 3 + |e| + hi] == r[lo..hi]
  {
    var lines := a + e + b + r + t;
    assert lines[3 + |e| + lo .. 3 + |e| + hi] == r[lo..hi];
  }

  /** The module has `16 + |members| + 8 * |icons|` lines, one enum statement per distinct key. */
  lemma RuntimeLineCount(js: Foreign, o: DtsOptions, sprite: GeneratedSprite, publicUrl: string, prefix: string)
    ensures |EnumMembers(js, prefix, sprite.entries)| == |Dedup(EnumKeys(js, sprite.entries))|
    ensures |RuntimeLines(js, o, sprite, publicUrl, prefix)| ==
              16 + |EnumMembers(js, prefix, sprite.entries)| + 8 * |sprite.entries|
  {
    var members := EnumMembers(js, prefix, sprite.entries);
    EnumMembersKeys(js, prefix, sprite.entries);
    if |sprite.entries| > 0 {
      EntriesLinesAt(js, prefix, sprite.entries, 0);
    }
    FiveParts(["let EnumClassList = {};"], EnumLines(members), ["", "let SpriteEntries = ["],
              EntriesLines(js, prefix, sprite.entries), TailLines(js, o, sprite, publicUrl, prefix), 0, 0);
  }

  /** Line `1 + i` fills the `i`-th distinct key (in first-occurrence order) with the class of the
      last icon that has that key. */
  lemma RuntimeEnumLine(js: Foreign, o: DtsOptions, sprite: GeneratedSprite, publicUrl: string, prefix: string, i: nat)
    requires i < |Dedup(EnumKeys(js, sprite.entries))|
    ensures var keys := Dedup(EnumKeys(js, sprite.entries));
            var lines := RuntimeLines(js, o, sprite, publicUrl, prefix);
            && 1 + i < |lines|
            && LastWithKey(js, sprite.entries, keys[i]).Some?
            && lines[1 + i] == EnumLine((keys[i], prefix + sprite.entries[LastWithKey(js, sprite.entries, keys[i]).value].name))
  {
    var members := EnumMembers(js, prefix, sprite.entries);
    EnumMembersKeys(js, prefix, sprite.entries);
    EnumMember(js, prefix, sprite.entries, i);
    FiveParts(["let EnumClassList = {};"], EnumLines(members), ["", "let SpriteEntries = ["],
              EntriesLines(js, prefix, sprite.entries), TailLines(js, o, sprite, publicUrl, prefix), 0, 0);
  }

  /** After the enum part, the module lists each icon's frozen record, in icon order. */
  lemma RuntimeRecords(js: Foreign, o: DtsOptions, sprite: GeneratedSprite, publicUrl: string, prefix: string, j: nat)
    requires j < |sprite.entries|
    ensures var start := 3 + |EnumMembers(js, prefix, sprite.entries)| + 8 * j;
            var lines := RuntimeLines(js, o, sprite, publicUrl, prefix);
            && start + 8 <= |lines|
            && lines[start .. start + 8] == EntryLines(js, prefix, sprite.entries[j])
  {
    var members := EnumMembers(js, prefix, sprite.entries);
    var records := EntriesLines(js, prefix, sprite.entries);
    EntriesLinesAt(js, prefix, sprite.entries, j);
    FiveParts(["let EnumClassList = {};"], EnumLines(members), ["", "let SpriteEntries = ["], records,
              TailLines(js, o, sprite, publicUrl, prefix), 8 * j, 8 * j + 8);
  }
}

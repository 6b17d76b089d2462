/**
 * FFI binding generation: the exported functions found in the parsed FFI
 * sources, with the platforms (Swift, Kotlin, WebAssembly) their export
 * attributes name, the structs that derive `Serialize`, and the text of
 * the three generated binding files. Reading, parsing and writing files
 * are outside the model: the parsed items are given.
 */
module FfiBindings {
  import opened Wrappers
  import opened Strings

  // ---------------------------------------------------------------------------
  // to_camel_case

  /**
   * snake_case to camelCase: every '_' is dropped and the character after a
   * run of '_' is upper-cased; `cap` says a '_' came just before `s`.
   */
  function Camel(s: string, cap: bool): string
    decreases |s|
  {
    if s == [] then []
    else if s[0] == '_' then Camel(s[1..], true)
    else if cap then [UpperChar(s[0])] + Camel(s[1..], false)
    else [s[0]] + Camel(s[1..], false)
  }

  function CamelCase(s: string): string
  {
    Camel(s, false)
  }

  /** `to_camel_case`: the character loop with its `capitalize_next` flag. */
  method ToCamelCase(snake: string) returns (result: string)
    ensures result == CamelCase(snake)
  {
    result := [];
    var capitalizeNext := false;
    for i := 0 to |snake|
      invariant result + Camel(snake[i..], capitalizeNext) == CamelCase(snake)
    {
      var c := snake[i];
      assert snake[i..][1..] == snake[i + 1..];
      if c == '_' {
        capitalizeNext := true;
      } else if capitalizeNext {
        result := result + [UpperChar(c)];
        capitalizeNext := false;
      } else {
        result := result + [c];
      }
    }
    assert snake[|snake|..] == [];
  }

  /** The output never contains '_'. */
  lemma {:induction false} CamelNoUnderscore(s: string, cap: bool)
    ensures '_' !in Camel(s, cap)
    decreases |s|
  {
    if s != [] {
      CamelNoUnderscore(s[1..], true);
      CamelNoUnderscore(s[1..], false);
    }
  }

  /** Every character of `s`, upper-cased when it follows a '_' (or starts `s` after one). */
  function Marked(s: string, cap: bool): (r: string)
    ensures |r| == |s|
  {
    seq(|s|, i requires 0 <= i < |s| => if (if i == 0 then cap else s[i - 1] == '_') then UpperChar(s[i]) else s[i])
  }

  function DropUnderscores(s: string): string
    decreases |s|
  {
    if s == [] then [] else (if s[0] == '_' then [] else [s[0]]) + DropUnderscores(s[1..])
  }

  /**
   * The loop agrees with the character-wise description: mark the character
   * after each '_', then drop the '_'s; all other characters, the first
   * included, are unchanged.
   */
  lemma {:induction false} CamelIsMarkedDropped(s: string, cap: bool)
    ensures Camel(s, cap) == DropUnderscores(Marked(s, cap))
    decreases |s|
  {
    if s != [] {
      var m := Marked(s, cap);
      var next := s[0] == '_';
      assert m[1..] == Marked(s[1..], next);
      CamelIsMarkedDropped(s[1..], next);
      if next {
        assert m[0] == '_';
      } else {
        assert m[0] != '_';
      }
    }
  }

  // ---------------------------------------------------------------------------
  // Platform extraction from export attributes

  const SWIFT := "swift"
  const KOTLIN := "kotlin"
  const WASM := "wasm"
  const MULTI_EXPORT := "multi_platform_export"

  /** The attribute path names the platform's export macro or the all-platform one. */
  predicate Exports(path: string, platform: string)
  {
    Contains(path, platform + "_export") || Contains(path, MULTI_EXPORT)
  }

  predicate KnownPlatform(p: string)
  {
    p == SWIFT || p == KOTLIN || p == WASM
  }

  function AddIfMissing(ps: seq<string>, p: string, wanted: bool): seq<string>
  {
    if wanted && p !in ps then ps + [p] else ps
  }

  /** One attribute's contribution: Swift, then Kotlin, then WebAssembly, each when not yet listed. */
  function AttrStep(ps: seq<string>, path: string): seq<string>
  {
    var a := AddIfMissing(ps, SWIFT, Exports(path, SWIFT));
    var b := AddIfMissing(a, KOTLIN, Exports(path, KOTLIN));
    AddIfMissing(b, WASM, Exports(path, WASM))
  }

  /** The platform list built over a function's attribute paths, in order. */
  function Platforms(paths: seq<string>): seq<string>
  {
    if paths == [] then [] else AttrStep(Platforms(paths[..|paths| - 1]), paths[|paths| - 1])
  }

  /** The attribute loop of `extract_function_from_item_fn` / `extract_function_from_impl_item`. */
  method ExtractPlatforms(paths: seq<string>) returns (platforms: seq<string>)
    ensures platforms == Platforms(paths)
  {
    platforms := [];
    for i := 0 to |paths|
      invariant platforms == Platforms(paths[..i])
    {
      var path := paths[i];
      assert paths[..i + 1][..i] == paths[..i];
      if Exports(path, SWIFT) && SWIFT !in platforms {
        platforms := platforms + [SWIFT];
      }
      if Exports(path, KOTLIN) && KOTLIN !in platforms {
        platforms := platforms + [KOTLIN];
      }
      if Exports(path, WASM) && WASM !in platforms {
        platforms := platforms + [WASM];
      }
    }
    assert paths[..|paths|] == paths;
  }

  lemma AddIfMissingKeeps(ps: seq<string>, p: string, wanted: bool)
    requires NoDuplicates(ps)
    ensures NoDuplicates(AddIfMissing(ps, p, wanted))
    ensures forall q :: q in AddIfMissing(ps, p, wanted) <==> q in ps || (wanted && q == p)
  {
  }

  /** A platform list has no duplicates, holds only the three platforms, and holds one exactly when an attribute exports to it. */
  lemma {:induction false} PlatformsMeaning(paths: seq<string>)
    ensures NoDuplicates(Platforms(paths))
    ensures forall p :: p in Platforms(paths) ==> KnownPlatform(p)
    ensures forall p :: KnownPlatform(p) ==> (p in Platforms(paths) <==> exists i :: 0 <= i < |paths| && Exports(paths[i], p))
    decreases |paths|
  {
    if paths != [] {
      var init := paths[..|paths| - 1];
      var last := paths[|paths| - 1];
      PlatformsMeaning(init);
      var ps := Platforms(init);
      var a := AddIfMissing(ps, SWIFT, Exports(last, SWIFT));
      var b := AddIfMissing(a, KOTLIN, Exports(last, KOTLIN));
      AddIfMissingKeeps(ps, SWIFT, Exports(last, SWIFT));
      AddIfMissingKeeps(a, KOTLIN, Exports(last, KOTLIN));
      AddIfMissingKeeps(b, WASM, Exports(last, WASM));
      forall p | KnownPlatform(p)
        ensures p in Platforms(paths) <==> exists i :: 0 <= i < |paths| && Exports(paths[i], p)
      {
        if exists i :: 0 <= i < |paths| && Exports(paths[i], p) {
          var i :| 0 <= i < |paths| && Exports(paths[i], p);
          if i < |init| {
            assert init[i] == paths[i];
          }
        }
        if exists i :: 0 <= i < |init| && Exports(init[i], p) {
          var i :| 0 <= i < |init| && Exports(init[i], p);
          assert paths[i] == init[i];
        }
      }
    }
  }

  /** An all-platform export attribute puts every platform in the list. */
  lemma MultiPlatformExportsAll(paths: seq<string>, i: nat)
    requires i < |paths| && Contains(paths[i], MULTI_EXPORT)
    ensures SWIFT in Platforms(paths) && KOTLIN in Platforms(paths) && WASM in Platforms(paths)
  {
    PlatformsMeaning(paths);
    assert Exports(paths[i], SWIFT) && Exports(paths[i], KOTLIN) && Exports(paths[i], WASM);
  }

  // ---------------------------------------------------------------------------
  // Items of a parsed FFI source file

  datatype FnItem = FnItem(name: string, attrPaths: seq<string>)
  datatype Attr = Attr(path: string, tokens: string)

  /** The parts of a `syn` item the extraction looks at; `fields` is `None` for a struct without named fields. */
  datatype Item =
    | ImplBlock(methods: seq<FnItem>)
    | FnDecl(f: FnItem)
    | StructDecl(name: string, attrs: seq<Attr>, fields: Option<seq<(string, string)>>)
    | OtherItem

  type Function = (string, seq<string>)
  type Struct = (string, seq<(string, string)>)

  /** The function and struct lists the extraction pushes onto. */
  datatype Found = Found(functions: seq<Function>, structs: seq<Struct>)

  /** A function is recorded with its platforms only when it has at least one. */
  function RecordFn(functions: seq<Function>, f: FnItem): (r: seq<Function>)
    ensures Platforms(f.attrPaths) == [] ==> r == functions
    ensures Platforms(f.attrPaths) != [] ==> r == functions + [(f.name, Platforms(f.attrPaths))]
  {
    var ps := Platforms(f.attrPaths);
    if ps != [] then functions + [(f.name, ps)] else functions
  }

  function RecordFns(functions: seq<Function>, fs: seq<FnItem>): seq<Function>
  {
    if fs == [] then functions else RecordFn(RecordFns(functions, fs[..|fs| - 1]), fs[|fs| - 1])
  }

  /** Some `derive` attribute mentions `Serialize`. */
  predicate HasSerialize(attrs: seq<Attr>)
  {
    exists i :: 0 <= i < |attrs| && attrs[i].path == "derive" && Contains(attrs[i].tokens, "Serialize")
  }

  function ItemStep(found: Found, item: Item): Found
  {
    match item
    case ImplBlock(ms) => Found(RecordFns(found.functions, ms), found.structs)
    case FnDecl(f) => Found(RecordFn(found.functions, f), found.structs)
    case StructDecl(name, attrs, fields) =>
      if HasSerialize(attrs) then
        Found(found.functions, found.structs + [(name, if fields.Some? then fields.value else [])])
      else found
    case OtherItem => found
  }

  /** `extract_ffi_items` over one file's items. */
  function ExtractItems(found: Found, items: seq<Item>): Found
  {
    if items == [] then found else ItemStep(ExtractItems(found, items[..|items| - 1]), items[|items| - 1])
  }

  /** The files in order; `None` is a file that could not be read or parsed and is skipped. */
  function ExtractFiles(files: seq<Option<seq<Item>>>): Found
  {
    if files == [] then Found([], [])
    else
      var found := ExtractFiles(files[..|files| - 1]);
      var last := files[|files| - 1];
      if last.Some? then ExtractItems(found, last.value) else found
  }

  /** Every recorded function has a non-empty list of distinct known platforms. */
  predicate WellTagged(functions: seq<Function>)
  {
    forall i :: 0 <= i < |functions| ==>
      functions[i].1 != [] && NoDuplicates(functions[i].1) && forall p :: p in functions[i].1 ==> KnownPlatform(p)
  }

  lemma RecordFnTagged(functions: seq<Function>, f: FnItem)
    requires WellTagged(functions)
    ensures WellTagged(RecordFn(functions, f))
  {
    PlatformsMeaning(f.attrPaths);
  }

  lemma {:induction false} RecordFnsTagged(functions: seq<Function>, fs: seq<FnItem>)
    requires WellTagged(functions)
    ensures WellTagged(RecordFns(functions, fs))
    decreases |fs|
  {
    if fs != [] {
      RecordFnsTagged(functions, fs[..|fs| - 1]);
      RecordFnTagged(RecordFns(functions, fs[..|fs| - 1]), fs[|fs| - 1]);
    }
  }

  lemma {:induction false} ExtractItemsTagged(found: Found, items: seq<Item>)
    requires WellTagged(found.functions)
    ensures WellTagged(ExtractItems(found, items).functions)
    decreases |items|
  {
    if items != [] {
      var prev := ExtractItems(found, items[..|items| - 1]);
      ExtractItemsTagged(found, items[..|items| - 1]);
      match items[|items| - 1]
      case ImplBlock(ms) => RecordFnsTagged(prev.functions, ms);
      case FnDecl(f) => RecordFnTagged(prev.functions, f);
      case StructDecl(_, _, _) =>
      case OtherItem =>
    }
  }

  /** Whatever the sources, the extracted functions are well tagged. */
  lemma {:induction false} ExtractFilesTagged(files: seq<Option<seq<Item>>>)
    ensures WellTagged(ExtractFiles(files).functions)
    decreases |files|
  {
    if files != [] {
      ExtractFilesTagged(files[..|files| - 1]);
      var last := files[|files| - 1];
      if last.Some? {
        ExtractItemsTagged(ExtractFiles(files[..|files| - 1]), last.value);
      }
    }
  }

  /** Structs are recorded exactly when they derive `Serialize`; functions are untouched by them. */
  lemma StructStep(found: Found, name: string, attrs: seq<Attr>, fields: Option<seq<(string, string)>>)
    ensures var r := ItemStep(found, StructDecl(name, attrs, fields));
            r.functions == found.functions &&
            (|r.structs| == |found.structs| + 1 <==> HasSerialize(attrs)) &&
            (HasSerialize(attrs) ==> r.structs[|found.structs|].0 == name)
  {
  }

  // ---------------------------------------------------------------------------
  // Generated binding files

  /** Text built by pushing the pieces in order. */
  function Concat(ps: seq<string>): string
  {
    if ps == [] then "" else Concat(ps[..|ps| - 1]) + ps[|ps| - 1]
  }

  /** The names of the functions tagged for `platform`, in order (the per-generator filter). */
  function FunctionsFor(functions: seq<Function>, platform: string): seq<string>
  {
    if functions == [] then []
    else
      var rest := FunctionsFor(functions[..|functions| - 1], platform);
      var last := functions[|functions| - 1];
      if platform in last.1 then rest + [last.0] else rest
  }

  /** A generator lists a function exactly when the function is tagged for its platform. */
  lemma {:induction false} FunctionsForMeaning(functions: seq<Function>, platform: string, name: string)
    ensures name in FunctionsFor(functions, platform) <==>
              exists i :: 0 <= i < |functions| && functions[i].0 == name && platform in functions[i].1
    decreases |functions|
  {
    if functions != [] {
      var init := functions[..|functions| - 1];
      FunctionsForMeaning(init, platform, name);
      if exists i :: 0 <= i < |functions| && functions[i].0 == name && platform in functions[i].1 {
        var i :| 0 <= i < |functions| && functions[i].0 == name && platform in functions[i].1;
        if i < |init| {
          assert init[i] == functions[i];
        }
      }
      if exists i :: 0 <= i < |init| && init[i].0 == name && platform in init[i].1 {
        var i :| 0 <= i < |init| && init[i].0 == name && platform in init[i].1;
        assert functions[i] == init[i];
      }
    }
  }

  function FnComments(names: seq<string>): seq<string>
  {
    seq(|names|, i requires 0 <= i < |names| => "// - " + names[i] + "\n")
  }

  function SwiftField(f: (string, string)): string
  {
    "    public let " + CamelCase(f.0) + ": String?\n"
  }

  function SwiftStruct(s: Struct): seq<string>
  {
    ["public struct " + s.0 + ": Codable {\n"] +
    seq(|s.1|, i requires 0 <= i < |s.1| => SwiftField(s.1[i])) +
    ["}\n\n"]
  }

  /** A Kotlin property declaration without its line end. */
  function KotlinDecl(name: string): string
  {
    "    val " + CamelCase(name) + ": String?"
  }

  function KotlinDecls(fields: seq<(string, string)>): seq<string>
  {
    seq(|fields|, i requires 0 <= i < |fields| => KotlinDecl(fields[i].0))
  }

  /** Each line ended by ",\n", except the last, ended by "\n" (the `i < len - 1` test). */
  function CommaLines(ls: seq<string>): seq<string>
  {
    seq(|ls|, i requires 0 <= i < |ls| => ls[i] + (if i < |ls| - 1 then ",\n" else "\n"))
  }

  /** The Kotlin property lines of a struct. */
  function KotlinFields(fields: seq<(string, string)>): seq<string>
  {
    CommaLines(KotlinDecls(fields))
  }

  function KotlinStruct(s: Struct): seq<string>
  {
    ["data class " + s.0 + "(\n"] + KotlinFields(s.1) + [")\n\n"]
  }

  function WasmField(f: (string, string)): string
  {
    "    " + CamelCase(f.0) + "?: string;\n"
  }

  function WasmStruct(s: Struct): seq<string>
  {
    ["export interface " + s.0 + " {\n"] +
    seq(|s.1|, i requires 0 <= i < |s.1| => WasmField(s.1[i])) +
    ["}\n\n"]
  }

  function WasmMethods(names: seq<string>): seq<string>
  {
    seq(|names|, i requires 0 <= i < |names| => "    " + CamelCase(names[i]) + "(): Promise<any>;\n")
  }

  function StructPieces(structs: seq<Struct>, render: Struct -> seq<string>): seq<string>
  {
    if structs == [] then [] else StructPieces(structs[..|structs| - 1], render) + render(structs[|structs| - 1])
  }

  /** The pieces pushed for the Swift file. */
  function SwiftPieces(found: Found): seq<string>
  {
    ["// Auto-generated Swift bindings from Rust\n",
     "// DO NOT EDIT - This file is generated automatically\n\n",
     "import Foundation\n\n"] +
    StructPieces(found.structs, SwiftStruct) +
    ["// Functions:\n"] + FnComments(FunctionsFor(found.functions, SWIFT))
  }

  /** The pieces pushed for the Kotlin file. */
  function KotlinPieces(found: Found): seq<string>
  {
    ["// Auto-generated Kotlin bindings\n", "package dev.scottkey.halvor\n\n"] +
    StructPieces(found.structs, KotlinStruct) +
    ["// Functions:\n"] + FnComments(FunctionsFor(found.functions, KOTLIN))
  }

  /** The pieces pushed for the TypeScript file. */
  function WasmPieces(found: Found): seq<string>
  {
    ["// Auto-generated TypeScript bindings\n\n"] +
    StructPieces(found.structs, WasmStruct) +
    ["export interface HalvorWasmModule {\n"] + WasmMethods(FunctionsFor(found.functions, WASM)) + ["}\n"]
  }

  /** Each generator's function section is one line per function tagged for its platform. */
  lemma GeneratorsFilter(found: Found)
    ensures var sw := SwiftPieces(found); var k := |sw| - |FunctionsFor(found.functions, SWIFT)|;
            sw[k - 1] == "// Functions:\n" && sw[k..] == FnComments(FunctionsFor(found.functions, SWIFT))
    ensures var kt := KotlinPieces(found); var k := |kt| - |FunctionsFor(found.functions, KOTLIN)|;
            kt[k - 1] == "// Functions:\n" && kt[k..] == FnComments(FunctionsFor(found.functions, KOTLIN))
    ensures var ws := WasmPieces(found); var k := |ws| - |FunctionsFor(found.functions, WASM)| - 1;
            ws[k - 1] == "export interface HalvorWasmModule {\n" &&
            ws[k..|ws| - 1] == WasmMethods(FunctionsFor(found.functions, WASM))
  {
  }

  /** Each line followed by `end`. */
  function Terminated(ls: seq<string>, end: string): seq<string>
  {
    seq(|ls|, i requires 0 <= i < |ls| => ls[i] + end)
  }

  /** All lines but the last end in ",\n", the last in "\n". */
  lemma CommaLinesSplit(ls: seq<string>)
    requires ls != []
    ensures CommaLines(ls) == Terminated(ls[..|ls| - 1], ",\n") + [ls[|ls| - 1] + "\n"]
  {
    var t := Terminated(ls[..|ls| - 1], ",\n") + [ls[|ls| - 1] + "\n"];
    forall i | 0 <= i < |ls| ensures CommaLines(ls)[i] == t[i] {
    }
  }

  /** Lines each followed by `sep` concatenate to the lines joined by `sep`, plus one more `sep`. */
  lemma {:induction false} TerminatedJoin(ls: seq<string>, sep: string)
    requires ls != []
    ensures Concat(Terminated(ls, sep)) == Join(ls, sep) + sep
    decreases |ls|
  {
    var n := |ls|;
    var t := Terminated(ls, sep);
    if n == 1 {
      assert t == [] + [ls[0] + sep];
      ConcatSnoc([], ls[0] + sep);
    } else {
      var init := ls[..n - 1];
      TerminatedJoin(init, sep);
      assert t == Terminated(init, sep) + [ls[n - 1] + sep];
      ConcatSnoc(Terminated(init, sep), ls[n - 1] + sep);
      assert ls == init + [ls[n - 1]];
      JoinSnoc(init, ls[n - 1], sep);
    }
  }

  /** Comma-ended lines concatenate to the lines joined by ",\n", plus the final line end. */
  lemma CommaLinesJoin(ls: seq<string>)
    requires ls != []
    ensures Concat(CommaLines(ls)) == Join(ls, ",\n") + "\n"
  {
    var n := |ls|;
    var init := ls[..n - 1];
    CommaLinesSplit(ls);
    ConcatSnoc(Terminated(init, ",\n"), ls[n - 1] + "\n");
    if n == 1 {
      assert Terminated(init, ",\n") == [];
    } else {
      TerminatedJoin(init, ",\n");
      assert ls == init + [ls[n - 1]];
      JoinSnoc(init, ls[n - 1], ",\n");
    }
  }

  /** A struct's Kotlin properties are its declarations joined by ",\n": a comma after every field but the last. */
  lemma KotlinCommas(fields: seq<(string, string)>)
    requires fields != []
    ensures Concat(KotlinFields(fields)) == Join(KotlinDecls(fields), ",\n") + "\n"
  {
    CommaLinesJoin(KotlinDecls(fields));
  }

  lemma ConcatSnoc(ps: seq<string>, x: string)
    ensures Concat(ps + [x]) == Concat(ps) + x
  {
    assert (ps + [x])[..|ps|] == ps;
  }

  /** A generated file: its path under the manifest directory and its text. */
  datatype Output = Output(path: seq<string>, code: string)

  /** `generate_ffi_bindings_cli`: the three binding files, or none when no function was found. */
  function GenerateBindings(files: seq<Option<seq<Item>>>): (r: seq<Output>)
    ensures ExtractFiles(files).functions == [] <==> r == []
    ensures r != [] ==> |r| == 3 && r[0].code == Concat(SwiftPieces(ExtractFiles(files)))
    ensures r != [] ==> r[1].code == Concat(KotlinPieces(ExtractFiles(files))) && r[2].code == Concat(WasmPieces(ExtractFiles(files)))
  {
    var found := ExtractFiles(files);
    if found.functions == [] then []
    else
      [Output(["halvor-swift", "Sources", "HalvorSwiftFFI", "halvor_ffi", "generated_swift_bindings.swift"], Concat(SwiftPieces(found))),
       Output(["halvor-android", "src", "main", "kotlin", "dev", "scottkey", "halvor", "GeneratedBindings.kt"], Concat(KotlinPieces(found))),
       Output(["halvor-web", "src", "lib", "halvor-ffi", "generated-bindings.ts"], Concat(WasmPieces(found)))]
  }
}

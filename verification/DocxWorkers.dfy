/** DOCX page workers and collection in completion order. */
module DocxWorkers {
  import opened Options
  import opened Seqs
  import opened Text

  /** A paragraph: its raw text and the image found in it, if any. */
  datatype Paragraph = Paragraph(text: string, image: Option<int>)

  /** Page content in reading order, before images are saved ... */
  datatype Item = TextItem(text: string) | ImageItem(image: int)

  /** ... and after, when an image is known by its temporary file. */
  datatype Saved = SavedText(text: string) | SavedImage(path: string)

  /** The one line a page worker returns. */
  datatype LineData = LineData(text: string, images: seq<string>, page: int, content: seq<Saved>)

  // ----- extracting one page

  function Despace(s: string): string {
    if s == "" then "" else [if s[0] == '\U{3000}' then ' ' else s[0]] + Despace(s[1..])
  }

  /** What a paragraph adds to the running text. */
  function ParagraphText(p: Paragraph): string {
    if Strip(p.text) == "" then "" else Strip(Despace(Strip(p.text))) + "\n"
  }

  /** Items gathered so far and text not yet turned into an item. */
  datatype Gather = Gather(items: seq<Item>, text: string)

  function Absorb(g: Gather, p: Paragraph, multimodal: bool): Gather {
    var text := g.text + ParagraphText(p);
    if multimodal && p.image.Some? then
      Gather(g.items + (if text == "" then [] else [TextItem(text)]) + [ImageItem(p.image.value)], "")
    else Gather(g.items, text)
  }

  function AbsorbAll(g: Gather, ps: seq<Paragraph>, multimodal: bool): Gather
    decreases ps
  {
    if ps == [] then g else AbsorbAll(Absorb(g, ps[0], multimodal), ps[1..], multimodal)
  }

  function Flush(g: Gather): seq<Item> {
    if g.text == "" then g.items else g.items + [TextItem(g.text)]
  }

  /** The paragraphs of a page; indices past the document's end are skipped. */
  function Selected(paras: seq<Paragraph>, ids: seq<nat>): seq<Paragraph> {
    if ids == [] then []
    else (if ids[0] < |paras| then [paras[ids[0]]] else []) + Selected(paras, ids[1..])
  }

  function ContentOf(paras: seq<Paragraph>, ids: seq<nat>, multimodal: bool): seq<Item> {
    Flush(AbsorbAll(Gather([], ""), Selected(paras, ids), multimodal))
  }

  method ExtractContent(paras: seq<Paragraph>, ids: seq<nat>, multimodal: bool) returns (contentSequence: seq<Item>)
    ensures contentSequence == ContentOf(paras, ids, multimodal)
  {
    hide *;
    contentSequence := [];
    var currentText := "";
    assert ids[0..] == ids;
    for i := 0 to |ids|
      invariant AbsorbAll(Gather(contentSequence, currentText), Selected(paras, ids[i..]), multimodal)
             == AbsorbAll(Gather([], ""), Selected(paras, ids), multimodal)
    {
      var paraIdx := ids[i];
      assert ids[i..] == [paraIdx] + ids[i + 1..];
      SelectedCons(paras, paraIdx, ids[i + 1..]);
      if paraIdx >= |paras| {
        continue;
      }
      var p := paras[paraIdx];
      ghost var g := Gather(contentSequence, currentText);
      AbsorbCons(g, p, Selected(paras, ids[i + 1..]), multimodal);
      AbsorbSteps(g, p, multimodal);
      if Strip(p.text) != "" {
        currentText := currentText + (Strip(Despace(Strip(p.text))) + "\n");
      }
      if multimodal && p.image.Some? {
        if currentText != "" {
          contentSequence := contentSequence + [TextItem(currentText)];
          currentText := "";
        }
        contentSequence := contentSequence + [ImageItem(p.image.value)];
      }
    }
    assert ids[|ids|..] == [];
    ContentEnd(paras, ids, multimodal, Gather(contentSequence, currentText));
    if currentText != "" {
      contentSequence := contentSequence + [TextItem(currentText)];
    }
  }

  lemma {:induction false} AbsorbSteps(g: Gather, p: Paragraph, multimodal: bool)
    ensures var text := if Strip(p.text) != "" then g.text + (Strip(Despace(Strip(p.text))) + "\n") else g.text;
      Absorb(g, p, multimodal) ==
        if !(multimodal && p.image.Some?) then Gather(g.items, text)
        else if text != "" then Gather(g.items + [TextItem(text)] + [ImageItem(p.image.value)], "")
        else Gather(g.items + [ImageItem(p.image.value)], "")
  {
    hide Strip, Despace;
    assert g.text + "" == g.text;
    assert g.items + [] == g.items;
  }

  lemma ContentEnd(paras: seq<Paragraph>, ids: seq<nat>, multimodal: bool, g: Gather)
    requires AbsorbAll(g, Selected(paras, []), multimodal) == AbsorbAll(Gather([], ""), Selected(paras, ids), multimodal)
    ensures ContentOf(paras, ids, multimodal) == if g.text != "" then g.items + [TextItem(g.text)] else g.items
  {
  }

  lemma {:induction false} SelectedCons(paras: seq<Paragraph>, id: nat, ids: seq<nat>)
    ensures Selected(paras, [id] + ids) == (if id < |paras| then [paras[id]] + Selected(paras, ids) else Selected(paras, ids))
    ensures Selected(paras, []) == []
  {
    assert ([id] + ids)[1..] == ids;
  }

  lemma {:induction false} AbsorbCons(g: Gather, p: Paragraph, ps: seq<Paragraph>, multimodal: bool)
    ensures AbsorbAll(g, [p] + ps, multimodal) == AbsorbAll(Absorb(g, p, multimodal), ps, multimodal)
  {
    hide Absorb;
    assert ([p] + ps)[1..] == ps;
  }

  /** Text of all text items, one after the other. */
  function ItemText(items: seq<Item>): string {
    if items == [] then "" else (if items[0].TextItem? then items[0].text else "") + ItemText(items[1..])
  }

  function ItemImages(items: seq<Item>): seq<int> {
    if items == [] then [] else (if items[0].ImageItem? then [items[0].image] else []) + ItemImages(items[1..])
  }

  function AllText(ps: seq<Paragraph>): string {
    if ps == [] then "" else ParagraphText(ps[0]) + AllText(ps[1..])
  }

  function AllImages(ps: seq<Paragraph>): seq<int> {
    if ps == [] then [] else (if ps[0].image.Some? then [ps[0].image.value] else []) + AllImages(ps[1..])
  }

  lemma {:induction false} ItemsAppend(a: seq<Item>, b: seq<Item>)
    ensures ItemText(a + b) == ItemText(a) + ItemText(b)
    ensures ItemImages(a + b) == ItemImages(a) + ItemImages(b)
  {
    hide *;
    if a == [] {
      ItemsNone();
      assert a + b == b;
      assert "" + ItemText(b) == ItemText(b) && [] + ItemImages(b) == ItemImages(b);
    } else {
      var x, rest := a[0], a[1..];
      ItemsAppend(rest, b);
      ItemsCons(x, rest);
      ItemsCons(x, rest + b);
      assert a == [x] + rest && a + b == [x] + (rest + b);
      Regroup(if x.TextItem? then x.text else "", ItemText(rest), ItemText(b));
      Regroup(if x.ImageItem? then [x.image] else [], ItemImages(rest), ItemImages(b));
    }
  }

  lemma ItemsNone()
    ensures ItemText([]) == "" && ItemImages([]) == []
  {
  }

  lemma ItemsCons(x: Item, rest: seq<Item>)
    ensures ItemText([x] + rest) == (if x.TextItem? then x.text else "") + ItemText(rest)
    ensures ItemImages([x] + rest) == (if x.ImageItem? then [x.image] else []) + ItemImages(rest)
  {
    assert ([x] + rest)[1..] == rest;
  }

  lemma {:induction false} OneItem(x: Item)
    ensures ItemText([x]) == if x.TextItem? then x.text else ""
    ensures ItemImages([x]) == if x.ImageItem? then [x.image] else []
    ensures ItemText([]) == "" && ItemImages([]) == []
  {
    assert [x][1..] == [];
    assert ItemText([]) == "";
  }

  lemma {:induction false} AbsorbKeeps(g: Gather, p: Paragraph, multimodal: bool)
    ensures var h := Absorb(g, p, multimodal);
      && ItemText(h.items) + h.text == ItemText(g.items) + g.text + ParagraphText(p)
      && ItemImages(h.items) == ItemImages(g.items) + (if multimodal && p.image.Some? then [p.image.value] else [])
  {
    hide ParagraphText, ItemText, ItemImages;
    var text := g.text + ParagraphText(p);
    if multimodal && p.image.Some? {
      var mid := g.items + (if text == "" then [] else [TextItem(text)]);
      ItemsAppend(mid, [ImageItem(p.image.value)]);
      OneItem(ImageItem(p.image.value));
      OneItem(TextItem(text));
      ItemsAppend(g.items, if text == "" then [] else [TextItem(text)]);
    }
  }

  lemma {:induction false} AbsorbAllKeeps(g: Gather, ps: seq<Paragraph>, multimodal: bool)
    ensures var h := AbsorbAll(g, ps, multimodal);
      && ItemText(h.items) + h.text == ItemText(g.items) + g.text + AllText(ps)
      && ItemImages(h.items) == ItemImages(g.items) + (if multimodal then AllImages(ps) else [])
    decreases ps
  {
    hide Absorb, ParagraphText, ItemText, ItemImages;
    if ps != [] {
      var g' := Absorb(g, ps[0], multimodal);
      AbsorbKeeps(g, ps[0], multimodal);
      AbsorbAllKeeps(g', ps[1..], multimodal);
      var base := ItemText(g.items) + g.text;
      assert base + ParagraphText(ps[0]) + AllText(ps[1..]) == base + AllText(ps);
    }
  }

  /** A page's content holds the text of its paragraphs and, in multimodal mode, their images, each once and in order. */
  lemma {:induction false} ContentComplete(paras: seq<Paragraph>, ids: seq<nat>, multimodal: bool)
    ensures var items, ps := ContentOf(paras, ids, multimodal), Selected(paras, ids);
      && ItemText(items) == AllText(ps)
      && ItemImages(items) == if multimodal then AllImages(ps) else []
  {
    hide ItemText, ItemImages, AbsorbAll;
    var g := AbsorbAll(Gather([], ""), Selected(paras, ids), multimodal);
    AbsorbAllKeeps(Gather([], ""), Selected(paras, ids), multimodal);
    OneItem(TextItem(g.text));
    ItemsAppend(g.items, [TextItem(g.text)]);
    assert ItemText(g.items) + g.text == AllText(Selected(paras, ids));
  }

  // ----- saving images and rebuilding the sequence

  /** Temporary files of the images that could be saved, in order; `save(k)` is the outcome for the page's image `k`. */
  function SavedPaths(n: nat, save: nat -> Option<string>): seq<string> {
    if n == 0 then [] else SavedPaths(n - 1, save) + (if save(n - 1).Some? then [save(n - 1).value] else [])
  }

  /** Images take the saved files one by one; images beyond the last saved file are dropped. */
  function Rebuild(items: seq<Item>, paths: seq<string>): seq<Saved> {
    if items == [] then []
    else if items[0].TextItem? then [SavedText(items[0].text)] + Rebuild(items[1..], paths)
    else if paths == [] then Rebuild(items[1..], paths)
    else [SavedImage(paths[0])] + Rebuild(items[1..], paths[1..])
  }

  /** Each item on its own: the image numbered `k` becomes its own file, or nothing if it could not be saved. */
  function InPlace(items: seq<Item>, k: nat, save: nat -> Option<string>): seq<Saved> {
    if items == [] then []
    else if items[0].TextItem? then [SavedText(items[0].text)] + InPlace(items[1..], k, save)
    else (if save(k).Some? then [SavedImage(save(k).value)] else []) + InPlace(items[1..], k + 1, save)
  }

  /** The saved files of the images in `items`, the first of which is numbered `k`. */
  function SavedFrom(items: seq<Item>, k: nat, save: nat -> Option<string>): seq<string> {
    if items == [] then []
    else if items[0].TextItem? then SavedFrom(items[1..], k, save)
    else (if save(k).Some? then [save(k).value] else []) + SavedFrom(items[1..], k + 1, save)
  }

  lemma {:induction false} SavedFromPaths(items: seq<Item>, k: nat, save: nat -> Option<string>)
    ensures SavedPaths(k + |ItemImages(items)|, save) == SavedPaths(k, save) + SavedFrom(items, k, save)
  {
    if items == [] {
      assert SavedPaths(k, save) + [] == SavedPaths(k, save);
    } else if items[0].TextItem? {
      SavedFromPaths(items[1..], k, save);
    } else {
      SavedFromPaths(items[1..], k + 1, save);
      Regroup(SavedPaths(k, save), if save(k).Some? then [save(k).value] else [], SavedFrom(items[1..], k + 1, save));
    }
  }

  /** Some text comes before an image that is saved. */
  predicate TextThenSaved(items: seq<Item>, k: nat, save: nat -> Option<string>) {
    && items != []
    && if items[0].TextItem? then SavedFrom(items[1..], k, save) != [] else TextThenSaved(items[1..], k + 1, save)
  }

  /** Some text lies after an image that could not be saved and before one that could. */
  predicate TextBetween(items: seq<Item>, k: nat, save: nat -> Option<string>) {
    && items != []
    && if items[0].TextItem? then TextBetween(items[1..], k, save)
       else if save(k).Some? then TextBetween(items[1..], k + 1, save)
       else TextThenSaved(items[1..], k + 1, save)
  }

  function Texts(items: seq<Item>): seq<Saved> {
    if items == [] then []
    else (if items[0].TextItem? then [SavedText(items[0].text)] else []) + Texts(items[1..])
  }

  function AsImages(paths: seq<string>): seq<Saved> {
    if paths == [] then [] else [SavedImage(paths[0])] + AsImages(paths[1..])
  }

  lemma {:induction false} RebuildNone(items: seq<Item>)
    ensures Rebuild(items, []) == Texts(items)
  {
    if items != [] {
      RebuildNone(items[1..]);
    }
  }

  lemma {:induction false} InPlaceNone(items: seq<Item>, k: nat, save: nat -> Option<string>)
    requires SavedFrom(items, k, save) == []
    ensures InPlace(items, k, save) == Texts(items)
  {
    if items != [] {
      InPlaceNone(items[1..], if items[0].TextItem? then k else k + 1, save);
    }
  }

  /** When no text comes before a saved image, both orders are the images and then the texts. */
  lemma {:induction false} ImagesFirst(items: seq<Item>, k: nat, save: nat -> Option<string>)
    requires !TextThenSaved(items, k, save)
    ensures InPlace(items, k, save) == AsImages(SavedFrom(items, k, save)) + Texts(items)
  {
    if items != [] {
      if items[0].TextItem? {
        InPlaceNone(items[1..], k, save);
      } else {
        ImagesFirst(items[1..], k + 1, save);
        var rest := SavedFrom(items[1..], k + 1, save);
        if save(k).Some? {
          Regroup([SavedImage(save(k).value)], AsImages(rest), Texts(items[1..]));
        } else {
          assert SavedFrom(items, k, save) == rest;
          assert InPlace(items, k, save) == InPlace(items[1..], k + 1, save);
        }
      }
    }
  }

  lemma {:induction false} RebuildImagesFirst(items: seq<Item>, k: nat, save: nat -> Option<string>, paths: seq<string>)
    requires !TextThenSaved(items, k, save) && |paths| <= |SavedFrom(items, k, save)|
    ensures Rebuild(items, paths) == AsImages(paths) + Texts(items)
  {
    if paths == [] {
      RebuildNone(items);
    } else if items[0].ImageItem? {
      RebuildImagesFirst(items[1..], k + 1, save, paths[1..]);
      Regroup([SavedImage(paths[0])], AsImages(paths[1..]), Texts(items[1..]));
    }
  }

  /** Images, and saved images, before the first text. */
  function LeadingSlots(items: seq<Item>): nat {
    if items == [] || items[0].TextItem? then 0 else 1 + LeadingSlots(items[1..])
  }

  function LeadingSaved(items: seq<Item>, k: nat, save: nat -> Option<string>): nat {
    if items == [] || items[0].TextItem? then 0
    else (if save(k).Some? then 1 else 0) + LeadingSaved(items[1..], k + 1, save)
  }

  lemma {:induction false} TextAfterLead(items: seq<Item>, k: nat, save: nat -> Option<string>)
    requires TextThenSaved(items, k, save)
    ensures var j := LeadingSaved(items, k, save);
      && j < |InPlace(items, k, save)| && InPlace(items, k, save)[j].SavedText?
      && j < |SavedFrom(items, k, save)| && j <= LeadingSlots(items)
  {
    if items[0].ImageItem? {
      LeadSteps(items, k, save);
      hide *;
      TextAfterLead(items[1..], k + 1, save);
    }
  }

  lemma LeadSteps(items: seq<Item>, k: nat, save: nat -> Option<string>)
    requires items != [] && items[0].ImageItem?
    ensures var rest := items[1..];
      && InPlace(items, k, save) == (if save(k).Some? then [SavedImage(save(k).value)] else []) + InPlace(rest, k + 1, save)
      && SavedFrom(items, k, save) == (if save(k).Some? then [save(k).value] else []) + SavedFrom(rest, k + 1, save)
      && LeadingSaved(items, k, save) == (if save(k).Some? then 1 else 0) + LeadingSaved(rest, k + 1, save)
      && LeadingSlots(items) == 1 + LeadingSlots(rest)
      && TextThenSaved(items, k, save) == TextThenSaved(rest, k + 1, save)
  {
  }

  lemma {:induction false} ImagesInLead(items: seq<Item>, paths: seq<string>, j: nat)
    requires j < |paths| && j < LeadingSlots(items)
    ensures j < |Rebuild(items, paths)| && Rebuild(items, paths)[j].SavedImage?
  {
    if j > 0 {
      ImagesInLead(items[1..], paths[1..], j - 1);
    }
  }

  lemma {:induction false} RebuildFromIff(items: seq<Item>, k: nat, save: nat -> Option<string>)
    ensures Rebuild(items, SavedFrom(items, k, save)) == InPlace(items, k, save) <==> !TextBetween(items, k, save)
  {
    if items != [] {
      var rest := items[1..];
      if items[0].TextItem? {
        RebuildFromIff(rest, k, save);
        SameTail(SavedText(items[0].text), Rebuild(rest, SavedFrom(rest, k, save)), InPlace(rest, k, save));
      } else if save(k).Some? {
        RebuildFromIff(rest, k + 1, save);
        var paths := SavedFrom(rest, k + 1, save);
        assert ([save(k).value] + paths)[1..] == paths;
        SameTail(SavedImage(save(k).value), Rebuild(rest, paths), InPlace(rest, k + 1, save));
      } else {
        LostImage(items, k, save);
      }
    }
  }

  lemma SameTail(x: Saved, a: seq<Saved>, b: seq<Saved>)
    ensures [x] + a == [x] + b <==> a == b
  {
    if [x] + a == [x] + b {
      assert a == ([x] + a)[1..];
      assert b == ([x] + b)[1..];
    }
  }

  lemma {:induction false} LostImage(items: seq<Item>, k: nat, save: nat -> Option<string>)
    requires items != [] && items[0].ImageItem? && save(k).None?
    ensures Rebuild(items, SavedFrom(items, k, save)) == InPlace(items, k, save) <==> !TextThenSaved(items[1..], k + 1, save)
  {
    var rest := items[1..];
    var paths := SavedFrom(rest, k + 1, save);
    LostSteps(items, k, save);
    hide *;
    if TextThenSaved(rest, k + 1, save) {
      TextAfterLead(rest, k + 1, save);
      ImagesInLead(items, paths, LeadingSaved(rest, k + 1, save));
    } else if paths == [] {
      RebuildNone(items);
      InPlaceNone(rest, k + 1, save);
    } else {
      ImagesFirst(rest, k + 1, save);
      RebuildImagesFirst(rest, k + 1, save, paths[1..]);
      assert paths == [paths[0]] + paths[1..];
      Regroup([SavedImage(paths[0])], AsImages(paths[1..]), Texts(rest));
    }
  }

  lemma LostSteps(items: seq<Item>, k: nat, save: nat -> Option<string>)
    requires items != [] && items[0].ImageItem? && save(k).None?
    ensures var paths := SavedFrom(items[1..], k + 1, save);
      && SavedFrom(items, k, save) == paths
      && InPlace(items, k, save) == InPlace(items[1..], k + 1, save)
      && LeadingSlots(items) == 1 + LeadingSlots(items[1..])
      && Texts(items) == Texts(items[1..])
      && (paths != [] ==> Rebuild(items, paths) == [SavedImage(paths[0])] + Rebuild(items[1..], paths[1..]))
  {
  }

  /** Images stay in their places exactly when no text lies between one that was not saved and a later one that was. */
  lemma {:induction false} RebuildInPlaceIff(items: seq<Item>, save: nat -> Option<string>)
    ensures Rebuild(items, SavedPaths(|ItemImages(items)|, save)) == InPlace(items, 0, save) <==> !TextBetween(items, 0, save)
  {
    SavedFromPaths(items, 0, save);
    assert SavedPaths(|ItemImages(items)|, save) == SavedFrom(items, 0, save);
    RebuildFromIff(items, 0, save);
  }

  lemma {:induction false} AllSavedNoneLost(items: seq<Item>, k: nat, save: nat -> Option<string>)
    requires forall i :: k <= i < k + |ItemImages(items)| ==> save(i).Some?
    ensures !TextBetween(items, k, save)
  {
    if items != [] {
      AllSavedNoneLost(items[1..], if items[0].TextItem? then k else k + 1, save);
    }
  }

  /** If every save succeeds, every image stays in its place. */
  lemma {:induction false} RebuildInPlace(items: seq<Item>, save: nat -> Option<string>)
    requires forall i :: 0 <= i < |ItemImages(items)| ==> save(i).Some?
    ensures Rebuild(items, SavedPaths(|ItemImages(items)|, save)) == InPlace(items, 0, save)
  {
    AllSavedNoneLost(items, 0, save);
    RebuildInPlaceIff(items, save);
  }

  /** An image that is not saved, a text and a saved image: the image moves before the text. */
  lemma {:induction false} ImageCanMove(lost: int, text: string, kept: int, path: string)
    ensures var items := [ImageItem(lost), TextItem(text), ImageItem(kept)];
      var save := (i: nat) => if i == 0 then None else Some(path);
      && InPlace(items, 0, save) == [SavedText(text), SavedImage(path)]
      && Rebuild(items, SavedPaths(|ItemImages(items)|, save)) == [SavedImage(path), SavedText(text)]
  {
    var items := [ImageItem(lost), TextItem(text), ImageItem(kept)];
    var save := (i: nat) => if i == 0 then None else Some(path);
    assert items[1..] == [TextItem(text), ImageItem(kept)] && items[1..][1..] == [ImageItem(kept)];
    assert [ImageItem(kept)][1..] == [] && [path][1..] == [];
    SavedFromPaths(items, 0, save);
    assert SavedFrom([ImageItem(kept)], 1, save) == [path];
    assert SavedFrom(items, 0, save) == [path];
    assert InPlace([ImageItem(kept)], 1, save) == [SavedImage(path)];
    assert InPlace(items, 0, save) == InPlace(items[1..], 1, save);
    assert Rebuild(items, [path]) == [SavedImage(path)] + Rebuild(items[1..], []);
    RebuildNone(items[1..]);
    assert Texts([ImageItem(kept)]) == [];
    assert Texts(items[1..]) == [SavedText(text)];
    assert |ItemImages(items)| == 2;
  }

  // ----- collecting the results

  /** The upload service and the temporary directory, seen from the collector. */
  datatype Uploads = Uploads(exists_: string -> bool, upload: string -> string)

  datatype Out = Out(text: string, page: int)

  function ImagesOf(lines: seq<LineData>): set<string> {
    if lines == [] then {} else (set p | p in lines[0].images) + ImagesOf(lines[1..])
  }

  /** Markdown for every image that exists and could be uploaded. */
  function UrlMap(lines: seq<LineData>, up: Uploads): map<string, string> {
    map p | p in ImagesOf(lines) && up.exists_(p) && up.upload(p) != "" :: "![](" + up.upload(p) + ")"
  }

  function Parts(content: seq<Saved>, urls: map<string, string>): seq<string> {
    if content == [] then [] else
      (match content[0]
       case SavedText(t) => if t == "" then [] else [t]
       case SavedImage(p) => if p in urls && urls[p] != "" then [urls[p]] else [])
      + Parts(content[1..], urls)
  }

  function FinalText(ln: LineData, urls: map<string, string>): string {
    Join("\n\n", Parts(ln.content, urls))
  }

  /** The loop's `page_num` is only refreshed by lines that have content. */
  function Processed(lines: seq<LineData>, urls: map<string, string>, stale: int): seq<Out> {
    if lines == [] then [] else
      var page := if lines[0].content == [] then stale else lines[0].page;
      [Out(FinalText(lines[0], urls), page)] + Processed(lines[1..], urls, page)
  }

  predicate HasImages(lines: seq<LineData>) {
    exists i :: 0 <= i < |lines| && lines[i].images != []
  }

  /** Page of the last line with images. */
  function LastImagePage(lines: seq<LineData>): int {
    if lines == [] then 0
    else if lines[|lines| - 1].images != [] then lines[|lines| - 1].page
    else LastImagePage(lines[..|lines| - 1])
  }

  function AsIs(lines: seq<LineData>): seq<Out> {
    if lines == [] then [] else [Out(lines[0].text, lines[0].page)] + AsIs(lines[1..])
  }

  function PageKey(o: Out): real { o.page as real }

  function Collect(lines: seq<LineData>, up: Uploads): seq<Out> {
    SortBy(if HasImages(lines) then Processed(lines, UrlMap(lines, up), LastImagePage(lines)) else AsIs(lines), PageKey)
  }

  predicate HasText(o: Out) { o.text != "" }

  /** The parser keeps the non-empty texts. */
  function DocumentText(outs: seq<Out>): string {
    Join("\n\n", OutTexts(Filter(outs, HasText)))
  }

  function OutTexts(outs: seq<Out>): seq<string> {
    if outs == [] then [] else [outs[0].text] + OutTexts(outs[1..])
  }

  /** What an item stands for in the document: its text, or the uploaded image, where there is one. */
  function Stands(lines: seq<LineData>, up: Uploads): Saved -> seq<string> {
    (x: Saved) =>
      match x
      case SavedText(t) => if t == "" then [] else [t]
      case SavedImage(p) =>
        if p in ImagesOf(lines) && up.exists_(p) && up.upload(p) != "" then ["![](" + up.upload(p) + ")"] else []
  }

  /** A line's text is what its items stand for, in their order, in paragraphs of their own. */
  lemma {:induction false} FinalTextIs(ln: LineData, lines: seq<LineData>, up: Uploads)
    ensures FinalText(ln, UrlMap(lines, up)) == Join("\n\n", FlatMap(ln.content, Stands(lines, up)))
  {
    PartsAre(ln.content, lines, up);
    hide Join, Parts, FlatMap, UrlMap;
  }

  lemma {:induction false} PartsAre(content: seq<Saved>, lines: seq<LineData>, up: Uploads)
    ensures Parts(content, UrlMap(lines, up)) == FlatMap(content, Stands(lines, up))
  {
    hide ImagesOf;
    if content != [] {
      PartsAre(content[1..], lines, up);
    }
  }

  /** The stale page number is that of the last line with images. */
  lemma {:induction false} LastImagePageIs(lines: seq<LineData>, k: nat)
    requires k < |lines| && lines[k].images != [] && forall j :: k < j < |lines| ==> lines[j].images == []
    ensures LastImagePage(lines) == lines[k].page
  {
    if k < |lines| - 1 {
      LastImagePageIs(lines[..|lines| - 1], k);
    }
  }

  // ----- the collector's loops

  method BuildUrlMap(lines: seq<LineData>, up: Uploads) returns (urls: map<string, string>)
    ensures urls == UrlMap(lines, up)
  {
    urls := map[];
    assert lines[..0] == [];
    ghost var seen: set<string> := {};
    for i := 0 to |lines|
      invariant seen == ImagesOf(lines[..i])
      invariant forall p :: p in urls <==> p in seen && up.exists_(p) && up.upload(p) != ""
      invariant forall p :: p in urls ==> urls[p] == "![](" + up.upload(p) + ")"
    {
      assert lines[..i + 1] == lines[..i] + [lines[i]];
      ImagesSnoc(lines[..i], lines[i]);
      var images := lines[i].images;
      for j := 0 to |images|
        invariant seen == ImagesOf(lines[..i]) + (set p | p in images[..j])
        invariant forall p :: p in urls <==> p in seen && up.exists_(p) && up.upload(p) != ""
        invariant forall p :: p in urls ==> urls[p] == "![](" + up.upload(p) + ")"
      {
        var path := images[j];
        if up.exists_(path) && path !in urls {
          var url := up.upload(path);
          if url != "" {
            urls := urls[path := "![](" + url + ")"];
          }
        }
        seen := seen + {path};
      }
      assert images[..|images|] == images;
    }
    assert lines[..|lines|] == lines;
  }

  lemma {:induction false} ImagesSnoc(lines: seq<LineData>, ln: LineData)
    ensures ImagesOf(lines + [ln]) == ImagesOf(lines) + (set p | p in ln.images)
  {
    if lines == [] {
      assert lines + [ln] == [ln] && [ln][1..] == [];
    } else {
      assert (lines + [ln])[1..] == lines[1..] + [ln];
      ImagesSnoc(lines[1..], ln);
    }
  }

  method FindImages(lines: seq<LineData>) returns (imagesToProcess: seq<nat>, pageNum: int)
    ensures imagesToProcess == [] <==> !HasImages(lines)
    ensures pageNum == LastImagePage(lines)
  {
    hide HasImages;
    imagesToProcess := [];
    pageNum := 0;
    assert lines[..0] == [];
    assert !HasImages([]) by { NoLines(); }
    for i := 0 to |lines|
      invariant imagesToProcess == [] <==> !HasImages(lines[..i])
      invariant pageNum == LastImagePage(lines[..i])
    {
      assert lines[..i + 1][..i] == lines[..i];
      HasImagesSnoc(lines, i);
      if lines[i].images != [] {
        imagesToProcess := imagesToProcess + [i];
        pageNum := lines[i].page;
      }
    }
    assert lines[..|lines|] == lines;
  }

  lemma {:induction false} NoLines()
    ensures !HasImages([])
  {
  }

  method ProcessResults(lines: seq<LineData>, up: Uploads) returns (sorted: seq<Out>)
    ensures sorted == Collect(lines, up)
  {
    hide UrlMap, FinalText, HasImages, LastImagePage, SortBy;
    var imagesToProcess, pageNum := FindImages(lines);
    if imagesToProcess == [] {
      sorted := SortBy(AsIs(lines), PageKey);
      return;
    }
    var urls := BuildUrlMap(lines, up);
    var processed: seq<Out> := [];
    ghost var whole := Processed(lines, urls, pageNum);
    assert lines[0..] == lines && [] + whole == whole;
    for i := 0 to |lines|
      invariant whole == processed + Processed(lines[i..], urls, pageNum)
    {
      assert lines[i..][1..] == lines[i + 1..];
      if lines[i].content != [] {
        pageNum := lines[i].page;
      }
      var out := Out(FinalText(lines[i], urls), pageNum);
      assert processed + ([out] + Processed(lines[i + 1..], urls, pageNum))
          == processed + [out] + Processed(lines[i + 1..], urls, pageNum);
      processed := processed + [out];
    }
    assert processed + [] == processed;
    sorted := SortBy(processed, PageKey);
  }

  lemma {:induction false} HasImagesPush(a: seq<LineData>, ln: LineData)
    ensures HasImages(a + [ln]) <==> HasImages(a) || ln.images != []
  {
    var b := a + [ln];
    if k :| 0 <= k < |a| && a[k].images != [] {
      assert b[k].images != [];
    }
    assert b[|a|] == ln;
  }

  lemma {:induction false} HasImagesSnoc(lines: seq<LineData>, i: nat)
    requires i < |lines|
    ensures HasImages(lines[..i + 1]) <==> HasImages(lines[..i]) || lines[i].images != []
  {
    var a := lines[..i];
    assert lines[..i + 1] == a + [lines[i]];
    HasImagesPush(a, lines[i]);
  }

  // ----- the completion order does not matter

  /** Every line with its own page number. */
  function OwnPage(lines: seq<LineData>, urls: map<string, string>): seq<Out> {
    if lines == [] then [] else [Out(FinalText(lines[0], urls), lines[0].page)] + OwnPage(lines[1..], urls)
  }

  /** A line with text has content, so its page number is its own: stale numbers only reach empty lines. */
  lemma {:induction false} StaleOnlyEmpty(lines: seq<LineData>, urls: map<string, string>, stale: int)
    ensures Filter(Processed(lines, urls, stale), HasText) == Filter(OwnPage(lines, urls), HasText)
  {
    if lines != [] {
      hide FinalText, Filter;
      var page := if lines[0].content == [] then stale else lines[0].page;
      StaleOnlyEmpty(lines[1..], urls, page);
      FilterCons(Out(FinalText(lines[0], urls), page), Processed(lines[1..], urls, page), HasText);
      FilterCons(Out(FinalText(lines[0], urls), lines[0].page), OwnPage(lines[1..], urls), HasText);
    }
  }

  /** The texts a collection works with, line by line. */
  function Rendered(lines: seq<LineData>, images: bool, urls: map<string, string>): seq<Out> {
    if images then OwnPage(lines, urls) else AsIs(lines)
  }

  lemma {:induction false} CollectRendered(lines: seq<LineData>, up: Uploads)
    ensures Filter(Collect(lines, up), HasText)
         == SortBy(Filter(Rendered(lines, HasImages(lines), UrlMap(lines, up)), HasText), PageKey)
  {
    hide Filter, SortBy, UrlMap;
    if HasImages(lines) {
      StaleOnlyEmpty(lines, UrlMap(lines, up), LastImagePage(lines));
      SortFilter(Processed(lines, UrlMap(lines, up), LastImagePage(lines)), PageKey, HasText);
    } else {
      SortFilter(AsIs(lines), PageKey, HasText);
    }
  }

  /** The text of one line in a given collection. */
  function RenderOne(ln: LineData, images: bool, urls: map<string, string>): Out {
    Out(if images then FinalText(ln, urls) else ln.text, ln.page)
  }

  lemma {:induction false} RenderedAt(lines: seq<LineData>, images: bool, urls: map<string, string>)
    ensures |Rendered(lines, images, urls)| == |lines|
    ensures forall k :: 0 <= k < |lines| ==> Rendered(lines, images, urls)[k] == RenderOne(lines[k], images, urls)
  {
    hide FinalText;
    if lines != [] {
      RenderedAt(lines[1..], images, urls);
    }
  }

  lemma {:induction false} RenderedIsMap(lines: seq<LineData>, images: bool, urls: map<string, string>)
    ensures Rendered(lines, images, urls) == FlatMap(lines, (ln: LineData) => [RenderOne(ln, images, urls)])
  {
    hide FinalText;
    if lines != [] {
      RenderedIsMap(lines[1..], images, urls);
    }
  }

  /** Rearranging the lines rearranges the rendered lines. */
  lemma {:induction false} RenderedPermutes(a: seq<LineData>, b: seq<LineData>, images: bool, urls: map<string, string>)
    requires multiset(a) == multiset(b)
    ensures multiset(Rendered(a, images, urls)) == multiset(Rendered(b, images, urls))
  {
    RenderedIsMap(a, images, urls);
    RenderedIsMap(b, images, urls);
    FlatMapPermutes(a, b, (ln: LineData) => [RenderOne(ln, images, urls)]);
    hide Rendered, FlatMap;
  }

  lemma {:induction false} ImagesIn(lines: seq<LineData>, p: string)
    ensures p in ImagesOf(lines) <==> exists k :: 0 <= k < |lines| && p in lines[k].images
  {
    if lines != [] {
      ImagesIn(lines[1..], p);
      if k :| 0 <= k < |lines[1..]| && p in lines[1..][k].images {
        assert p in lines[k + 1].images;
      }
      if k :| 0 < k < |lines| && p in lines[k].images {
        assert p in lines[1..][k - 1].images;
      }
    }
  }

  /** Both collections see the same images, hence the same references. */
  lemma {:induction false} SameImages(a: seq<LineData>, b: seq<LineData>, up: Uploads)
    requires multiset(a) == multiset(b)
    ensures HasImages(a) == HasImages(b) && UrlMap(a, up) == UrlMap(b, up)
  {
    SameMultiset(a, b);
    HasImagesMember(a);
    HasImagesMember(b);
    assert ImagesOf(a) == ImagesOf(b) by {
      forall p ensures p in ImagesOf(a) <==> p in ImagesOf(b) {
        ImagesMember(a, p);
        ImagesMember(b, p);
      }
    }
  }

  lemma {:induction false} HasImagesMember(a: seq<LineData>)
    ensures HasImages(a) <==> exists ln :: ln in a && ln.images != []
  {
  }

  lemma {:induction false} ImagesMember(a: seq<LineData>, p: string)
    ensures p in ImagesOf(a) <==> exists ln :: ln in a && p in ln.images
  {
    ImagesIn(a, p);
    if ln :| ln in a && p in ln.images {
      var k :| 0 <= k < |a| && a[k] == ln;
      assert p in a[k].images;
    }
  }

  predicate PagesIncrease(lines: seq<LineData>) {
    forall i, j :: 0 <= i < j < |lines| ==> lines[i].page < lines[j].page
  }

  /**
   * Whatever order the page workers finish in, the non-empty texts are those of a page-by-page run, in page order;
   * so the document text is the same.
   */
  lemma {:induction false} CompletionOrderIrrelevant(done: seq<LineData>, inOrder: seq<LineData>, up: Uploads)
    requires multiset(done) == multiset(inOrder) && PagesIncrease(inOrder)
    ensures Filter(Collect(done, up), HasText)
         == Filter(Rendered(inOrder, HasImages(inOrder), UrlMap(inOrder, up)), HasText)
    ensures Filter(Collect(done, up), HasText) == Filter(Collect(inOrder, up), HasText)
    ensures DocumentText(Collect(done, up)) == DocumentText(Collect(inOrder, up))
  {
    var images, urls := HasImages(inOrder), UrlMap(inOrder, up);
    hide Collect, UrlMap, HasImages;
    SameImages(done, inOrder, up);
    CollectRendered(done, up);
    CollectRendered(inOrder, up);
    RenderedPermutes(done, inOrder, images, urls);
    var a, b := Rendered(done, images, urls), Rendered(inOrder, images, urls);
    RenderedIncreases(inOrder, images, urls);
    FilterIncreases(b);
    FilterMultiset(a, b, HasText);
    hide Rendered, Filter;
    SortUnique(Filter(a, HasText), Filter(b, HasText), PageKey);
    SortUnique(Filter(b, HasText), Filter(b, HasText), PageKey);
  }

  predicate Increasing(outs: seq<Out>) {
    forall i, j :: 0 <= i < j < |outs| ==> PageKey(outs[i]) < PageKey(outs[j])
  }

  lemma {:induction false} RenderedIncreases(lines: seq<LineData>, images: bool, urls: map<string, string>)
    requires PagesIncrease(lines)
    ensures Increasing(Rendered(lines, images, urls))
  {
    RenderedAt(lines, images, urls);
    hide Rendered, FinalText;
  }

  lemma {:induction false} FilterIncreases(outs: seq<Out>)
    requires Increasing(outs)
    ensures Increasing(Filter(outs, HasText))
  {
    if outs != [] {
      FilterIncreases(outs[1..]);
      FilterIn(outs[1..], HasText);
      var rest := Filter(outs[1..], HasText);
      forall k | 0 <= k < |rest| ensures PageKey(outs[0]) < PageKey(rest[k]) {
        assert rest[k] in rest && rest[k] in outs[1..];
        var m :| 0 <= m < |outs[1..]| && outs[1..][m] == rest[k];
        assert outs[m + 1] == rest[k];
      }
    }
  }

  // ----- workers finishing in any order

  function ResultOf(worker: nat -> Option<LineData>): nat -> seq<LineData> {
    (p: nat) => if worker(p).Some? then [worker(p).value] else []
  }

  /** Lines of the pages listed in `order`; each worker returns one line or, on failure, none. */
  function Finished(order: seq<nat>, worker: nat -> Option<LineData>): seq<LineData> {
    FlatMap(order, ResultOf(worker))
  }

  /** The whole fan-out: for every order in which the workers of pages `pages` finish, the document text is the same. */
  lemma {:induction false} FanOutDeterministic(pages: seq<nat>, order: seq<nat>, worker: nat -> Option<LineData>, up: Uploads)
    requires multiset(order) == multiset(pages)
    requires forall i, j :: 0 <= i < j < |pages| ==> pages[i] < pages[j]
    requires forall p :: p in pages && worker(p).Some? ==> worker(p).value.page == p
    ensures DocumentText(Collect(Finished(order, worker), up)) == DocumentText(Collect(Finished(pages, worker), up))
  {
    hide Collect, DocumentText, FlatMap;
    FlatMapPermutes(order, pages, ResultOf(worker));
    FinishedIncrease(pages, worker);
    CompletionOrderIrrelevant(Finished(order, worker), Finished(pages, worker), up);
  }

  lemma {:induction false} FinishedIncrease(pages: seq<nat>, worker: nat -> Option<LineData>)
    requires forall i, j :: 0 <= i < j < |pages| ==> pages[i] < pages[j]
    requires forall p :: p in pages && worker(p).Some? ==> worker(p).value.page == p
    ensures PagesIncrease(Finished(pages, worker))
    ensures forall ln :: ln in Finished(pages, worker) ==> ln.page >= 0 && ln.page in pages
  {
    if pages != [] {
      FinishedIncrease(pages[1..], worker);
      assert pages[0] in pages;
      var rest := Finished(pages[1..], worker);
      forall k | 0 <= k < |rest| ensures pages[0] < rest[k].page {
        assert rest[k] in rest;
        var m :| 0 <= m < |pages[1..]| && pages[1..][m] == rest[k].page;
        assert pages[m + 1] == rest[k].page;
      }
    }
  }
}

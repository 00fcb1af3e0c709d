/**
 * The best-match template detector of Modules/dialog_detector.py.
 *
 * `DialogDetector` keeps a dictionary of templates, keyed by file stem and
 * iterated in insertion order (a Python dict): the order is the `keys`
 * field, the contents the `templates` map. `Detect` matches every template
 * that fits inside the screenshot and keeps the global best score, where a
 * later template replaces the current best only with a strictly higher score
 * and the best starts at 0; it reports a detection when that best reaches the
 * threshold.
 */
module DialogDetection {

  import opened Options
  import opened Vision
  import opened Text

  /** The `threshold` `detect` uses when its caller gives none. */
  const DefaultThreshold: real := 0.8

  // ---------------------------------------------------------------------------
  // The template dictionary
  // ---------------------------------------------------------------------------

  /** One file of the template folder; `image` is None when `cv2.imread` fails. */
  datatype FileEntry = FileEntry(name: string, image: Option<Image>)

  /** The name ends in `ext`, compared case-insensitively (ASCII). */
  predicate HasExtension(f: string, ext: string)
  {
    |ext| <= |f| && Lower(f[|f| - |ext|..]) == ext
  }

  /** `f.lower().endswith(('.png', '.jpg', '.jpeg'))`: only the extension's case is ignored. */
  predicate IsTemplateFile(f: string)
    ensures IsTemplateFile(f) <==> HasExtension(f, ".png") || HasExtension(f, ".jpg") || HasExtension(f, ".jpeg")
  {
    var l := Lower(f);
    EndsWith(l, ".png") || EndsWith(l, ".jpg") || EndsWith(l, ".jpeg")
  }

  /** A file `load_templates` keeps: an image file name that loads. */
  predicate Loads(f: FileEntry)
  {
    IsTemplateFile(f.name) && f.image.Some?
  }

  predicate Distinct(keys: seq<string>)
  {
    forall i, j :: 0 <= i < j < |keys| ==> keys[i] != keys[j]
  }

  /** The insertion order lists every key of the dictionary exactly once. */
  ghost predicate WellFormed(keys: seq<string>, m: map<string, Image>)
  {
    Distinct(keys) && forall k :: k in m <==> k in keys
  }

  /**
   * `templates[name] = image` on an insertion-ordered dictionary: a new key
   * goes to the end, an existing key keeps its place and gets the new value.
   */
  function Put(keys: seq<string>, m: map<string, Image>, name: string, img: Image): (r: (seq<string>, map<string, Image>))
    ensures WellFormed(keys, m) ==> WellFormed(r.0, r.1)
    ensures |keys| <= |r.0| && r.0[..|keys|] == keys
    ensures name in r.1 && r.1[name] == img
    ensures forall k :: k in m && k != name ==> k in r.1 && r.1[k] == m[k]
    ensures forall k :: k in r.1 ==> k in m || k == name
  {
    if name in m then (keys, m[name := img]) else (keys + [name], m[name := img])
  }

  /** The dictionary after `load_templates` has walked a folder listing. */
  function LoadAll(keys: seq<string>, m: map<string, Image>, listing: seq<FileEntry>): (r: (seq<string>, map<string, Image>))
    decreases |listing|
    ensures |keys| <= |r.0| && r.0[..|keys|] == keys
    ensures forall k :: k in m ==> k in r.1
  {
    if listing == [] then (keys, m)
    else
      var prev := LoadAll(keys, m, listing[..|listing| - 1]);
      var f := listing[|listing| - 1];
      if Loads(f) then Put(prev.0, prev.1, Stem(f.name), f.image.value) else prev
  }

  /** File `f` loads and has stem `k`. */
  predicate Gives(f: FileEntry, k: string)
  {
    Loads(f) && Stem(f.name) == k
  }

  /** Some file of the listing that loads has stem `k`. */
  predicate Provides(listing: seq<FileEntry>, k: string)
  {
    exists i :: 0 <= i < |listing| && Gives(listing[i], k)
  }

  /** A listing provides a key iff its last file does or the files before it do. */
  lemma ProvidesLast(listing: seq<FileEntry>)
    requires listing != []
    ensures var init, f := listing[..|listing| - 1], listing[|listing| - 1];
            forall k :: Provides(listing, k) <==> Provides(init, k) || Gives(f, k)
  {
    var init, f := listing[..|listing| - 1], listing[|listing| - 1];
    forall k | Provides(listing, k) ensures Provides(init, k) || Gives(f, k) {
      var i :| 0 <= i < |listing| && Gives(listing[i], k);
      if i < |init| {
        assert init[i] == listing[i];
      }
    }
    forall k | Provides(init, k) ensures Provides(listing, k) {
      var i :| 0 <= i < |init| && Gives(init[i], k);
      assert listing[i] == init[i];
    }
    forall k | Gives(f, k) ensures Provides(listing, k) {
      assert listing[|listing| - 1] == f;
    }
  }

  /**
   * Loading keeps the dictionary well formed, and a key is present afterwards
   * exactly when it was present before or some loadable file has it as stem;
   * keys no file provides keep their values.
   */
  lemma {:induction false} LoadAllKeys(keys: seq<string>, m: map<string, Image>, listing: seq<FileEntry>)
    requires WellFormed(keys, m)
    ensures var r := LoadAll(keys, m, listing);
            WellFormed(r.0, r.1) &&
            (forall k :: k in r.1 <==> k in m || Provides(listing, k)) &&
            (forall k :: k in m && !Provides(listing, k) ==> r.1[k] == m[k])
    decreases |listing|
  {
    if listing != [] {
      var init := listing[..|listing| - 1];
      var f := listing[|listing| - 1];
      LoadAllKeys(keys, m, init);
      ProvidesLast(listing);
      var prev := LoadAll(keys, m, init);
      assert LoadAll(keys, m, listing) == if Loads(f) then Put(prev.0, prev.1, Stem(f.name), f.image.value) else prev;
    }
  }

  /** When several files share a stem, the one listed last wins. */
  lemma {:induction false} LoadAllLastWins(keys: seq<string>, m: map<string, Image>, listing: seq<FileEntry>, j: nat)
    requires j < |listing| && Loads(listing[j])
    requires forall i :: j < i < |listing| && Loads(listing[i]) ==> Stem(listing[i].name) != Stem(listing[j].name)
    ensures var r := LoadAll(keys, m, listing);
            Stem(listing[j].name) in r.1 && r.1[Stem(listing[j].name)] == listing[j].image.value
    decreases |listing|
  {
    var init := listing[..|listing| - 1];
    if j < |listing| - 1 {
      assert init[j] == listing[j];
      LoadAllLastWins(keys, m, init, j);
    }
  }

  // ---------------------------------------------------------------------------
  // Best-match selection
  // ---------------------------------------------------------------------------

  /** The `best_match` dictionary: template name, confidence, location and size. */
  datatype BestMatch = BestMatch(template: string, confidence: real, x: int, y: int, w: nat, h: nat)

  /** A best match together with the position of its template in the dictionary's order. */
  datatype Candidate = Candidate(index: nat, best: BestMatch)

  /** The second element `detect` returns. */
  datatype Details =
    | NoDetails                                                          // {}
    | LoadError(error: string)                                           // {'error': ...}
    | Matched(best: BestMatch)                                           // best_match
    | Missed(bestConfidence: real, threshold: real, templatesChecked: nat)

  predicate KeysPresent(keys: seq<string>, tpl: map<string, Image>)
  {
    forall i :: 0 <= i < |keys| ==> keys[i] in tpl
  }

  /** Template `i` is no taller and no wider than the screenshot. */
  predicate Eligible(keys: seq<string>, tpl: map<string, Image>, shot: Image, i: nat)
    requires KeysPresent(keys, tpl) && i < |keys|
  {
    Fits(tpl[keys[i]], shot)
  }

  function Score(e: Engine, keys: seq<string>, tpl: map<string, Image>, shot: Image, i: nat): real
    requires KeysPresent(keys, tpl) && i < |keys|
  {
    e.matcher(shot, tpl[keys[i]]).score
  }

  /** `best_confidence` for an optional best match: 0 while there is none. */
  function Confidence(b: Option<Candidate>): real
  {
    if b.None? then 0.0 else b.value.best.confidence
  }

  /**
   * The best match among the first `n` templates, as the loop of `detect`
   * leaves it: the highest score among templates that fit, the earliest one
   * on a tie, and nothing unless some score is above 0.
   */
  function BestUpTo(e: Engine, keys: seq<string>, tpl: map<string, Image>, shot: Image, n: nat): (b: Option<Candidate>)
    requires KeysPresent(keys, tpl) && n <= |keys|
    decreases n
    ensures b.Some? ==> b.value.index < n && Eligible(keys, tpl, shot, b.value.index)
    ensures b.Some? ==> b.value.best.template == keys[b.value.index] &&
                        b.value.best.confidence == Score(e, keys, tpl, shot, b.value.index) > 0.0
    ensures b.Some? ==> var t := tpl[keys[b.value.index]];
                        var m := e.matcher(shot, t);
                        b.value.best == BestMatch(keys[b.value.index], m.score, m.x, m.y, t.width, t.height)
    ensures forall j :: 0 <= j < n && Eligible(keys, tpl, shot, j) ==> Score(e, keys, tpl, shot, j) <= Confidence(b)
    ensures b.Some? ==> forall j :: 0 <= j < b.value.index && Eligible(keys, tpl, shot, j) ==>
                                    Score(e, keys, tpl, shot, j) < b.value.best.confidence
  {
    if n == 0 then None
    else
      var prev := BestUpTo(e, keys, tpl, shot, n - 1);
      var t := tpl[keys[n - 1]];
      if !Fits(t, shot) then prev
      else
        var m := e.matcher(shot, t);
        if m.score > Confidence(prev) then
          Some(Candidate(n - 1, BestMatch(keys[n - 1], m.score, m.x, m.y, t.width, t.height)))
        else prev
  }

  /** The loop of `detect` over the templates. */
  method SelectBest(e: Engine, keys: seq<string>, tpl: map<string, Image>, shot: Image) returns (b: Option<Candidate>)
    requires KeysPresent(keys, tpl)
    ensures b == BestUpTo(e, keys, tpl, shot, |keys|)
  {
    b := None;
    var bestConfidence := 0.0;
    var i := 0;
    while i < |keys|
      invariant 0 <= i <= |keys|
      invariant b == BestUpTo(e, keys, tpl, shot, i)
      invariant bestConfidence == Confidence(b)
    {
      var name := keys[i];
      var template := tpl[name];
      ghost var next := BestUpTo(e, keys, tpl, shot, i + 1);
      if template.height > shot.height || template.width > shot.width {
        assert next == b;
        i := i + 1;
        continue;
      }
      var m := e.matcher(shot, template);
      if m.score > bestConfidence {
        bestConfidence := m.score;
        b := Some(Candidate(i, BestMatch(name, m.score, m.x, m.y, template.width, template.height)));
      }
      assert next == b;
      i := i + 1;
    }
  }

  /** The outcome of `detect` for a readable screenshot and a non-empty dictionary. */
  function Verdict(b: Option<Candidate>, threshold: real, templateCount: nat): (r: (bool, Details))
    ensures r.0 <==> b.Some? && b.value.best.confidence >= threshold
    ensures r.0 ==> r.1 == Matched(b.value.best)
    ensures !r.0 ==> r.1 == Missed(Confidence(b), threshold, templateCount)
  {
    if b.Some? && Confidence(b) >= threshold then (true, Matched(b.value.best))
    else (false, Missed(Confidence(b), threshold, templateCount))
  }

  class DialogDetector {
    var templateFolder: string
    var keys: seq<string>
    var templates: map<string, Image>

    ghost predicate Valid()
      reads this
    {
      WellFormed(keys, templates)
    }

    /** `__init__`: an empty dictionary, then `load_templates` on the folder. */
    constructor (folder: string := "templates", folderExists: bool, listing: seq<FileEntry>)
      ensures Valid() && templateFolder == folder
      ensures (keys, templates) == if folderExists then LoadAll([], map[], listing) else ([], map[])
    {
      templateFolder := folder;
      keys := [];
      templates := map[];
      new;
      LoadTemplates(folderExists, listing);
    }

    /**
     * `load_templates`: a missing folder is created and nothing is loaded;
     * otherwise every image file that loads is added under its stem, in
     * listing order. Nothing is removed.
     */
    method LoadTemplates(folderExists: bool, listing: seq<FileEntry>)
      requires Valid()
      modifies this`keys, this`templates
      ensures Valid()
      ensures (keys, templates) == if folderExists then LoadAll(old(keys), old(templates), listing)
                                   else (old(keys), old(templates))
    {
      if !folderExists {
        return;
      }
      ghost var keys0, templates0 := keys, templates;
      var i := 0;
      while i < |listing|
        invariant 0 <= i <= |listing|
        invariant (keys, templates) == LoadAll(keys0, templates0, listing[..i])
        invariant Valid()
      {
        assert listing[..i + 1][..i] == listing[..i];
        var f := listing[i];
        ghost var prev := LoadAll(keys0, templates0, listing[..i]);
        assert LoadAll(keys0, templates0, listing[..i + 1]) ==
               if Loads(f) then Put(prev.0, prev.1, Stem(f.name), f.image.value) else prev;
        if IsTemplateFile(f.name) && f.image.Some? {
          var name := Stem(f.name);
          AddTemplate(name, f.image.value);
        }
        i := i + 1;
      }
      assert listing[..|listing|] == listing;
    }

    /** `detect(screenshot, threshold)`; the rectangle and label drawn on the debug copy are not modelled. */
    method Detect(e: Engine, screenshot: Option<Image>, threshold: real := DefaultThreshold)
      returns (detected: bool, details: Details, debugImage: Option<Image>)
      requires Valid()
      ensures screenshot.None? ==> !detected && details == NoDetails && debugImage.None?
      ensures screenshot.Some? && keys == [] ==>
                !detected && details == LoadError("No templates loaded") && debugImage == screenshot
      ensures screenshot.Some? && keys != [] ==>
                debugImage == screenshot &&
                (detected, details) == Verdict(BestUpTo(e, keys, templates, screenshot.value, |keys|), threshold, |keys|)
    {
      if screenshot.None? {
        return false, NoDetails, None;
      }
      if keys == [] {
        return false, LoadError("No templates loaded"), screenshot;
      }
      var best := SelectBest(e, keys, templates, screenshot.value);
      if best.Some? && best.value.best.confidence >= threshold {
        return true, Matched(best.value.best), screenshot;
      }
      return false, Missed(Confidence(best), threshold, |keys|), screenshot;
    }

    /** `add_template(name, image)`: set one key, leave every other key as it was. */
    method AddTemplate(name: string, image: Image)
      requires Valid()
      modifies this`keys, this`templates
      ensures Valid()
      ensures (keys, templates) == Put(old(keys), old(templates), name, image)
    {
      if name !in templates {
        keys := keys + [name];
      }
      templates := templates[name := image];
    }
  }

  lemma LowerSuffix(b: string, ext: string)
    ensures Lower(b + ext)[|b|..] == Lower(ext)
  {
  }

  /** A file named `b.PNG` (any case of .png, .jpg, .jpeg) is loaded under the key `b`, unless `b` is all dots. */
  lemma TemplateKey(b: string, ext: string)
    requires Lower(ext) == ".png" || Lower(ext) == ".jpg" || Lower(ext) == ".jpeg"
    requires !AllDots(b)
    ensures IsTemplateFile(b + ext)
    ensures Stem(b + ext) == b
  {
    var f := b + ext;
    LowerSuffix(b, ext);
    assert EndsWith(Lower(f), Lower(ext));
    forall j | 0 <= j < |ext| ensures ext[j] == '.' <==> Lower(ext)[j] == '.' {
      assert Lower(ext)[j] == LowerChar(ext[j]);
    }
    StemOfSplit(b, ext);
  }

  /** A file named just ".png" has no extension for `os.path.splitext`, so its key keeps the dot. */
  lemma HiddenTemplateKey()
    ensures IsTemplateFile(".png") && Stem(".png") == ".png"
  {
    assert ".png"[..0] == "";
  }
}

/**
 * The standalone viewer page's configuration from its own address
 * (src/standalone/standalone.js, parseURLParameters): the query string after the
 * first '?' is cut at '&' into key=value items, each item becomes one member of a
 * JSON object text, unknown keys are reported, and the parsed configuration
 * either names a configuration file to fetch (config, or the deprecated tour) or
 * goes to the viewer directly. A fetched file's keys are merged under the URL's,
 * with basePath set to the file's directory.
 *
 * decodeURIComponent and the JSON.parse of a single value are parameters: each
 * maps its argument to the text it produces, or None when it throws. Whether
 * JSON.parse accepts a text as one whole value is the parameter isValue. The
 * address is taken after decodeURI.
 */
module Standalone {
  import opened Wrappers
  import opened Strings

  const NoOptionsMessage := "No configuration options were specified."
  const InvalidParameterMessage := "An invalid configuration parameter was specified: "

  /** How the switch on the key treats the value. */
  datatype KeyClass = Numeric | Boolean | Quoted | Invalid

  function Classify(option: string): KeyClass
  {
    if option in {"hfov", "pitch", "yaw", "haov", "vaov", "vOffset", "autoRotate"} then Numeric
    else if option in {"autoLoad", "ignoreGPanoXMP"} then Boolean
    else if option in {"tour", "author", "title", "firstScene", "fallback", "preview", "panorama", "config"} then Quoted
    else Invalid
  }

  /** A configuration value: a JSON string, or any other JSON value by its text. */
  datatype Value = Text(s: string) | Literal(text: string)

  /** A parsed configuration object. */
  type Config = map<string, Value>

  /** What one item contributes: a key with its value, or a key the switch does not know. */
  datatype Piece = Known(key: string, value: Value) | Unknown(key: string)

  /** The item's key: the text before its first '='. */
  function OptionName(item: string): string
  {
    Split(item, '=')[0]
  }

  /** The item's value: the text between its first and second '=', or undefined (which prints as "undefined"). */
  function OptionValue(item: string): string
  {
    var parts := Split(item, '=');
    if |parts| > 1 then parts[1] else "undefined"
  }

  /**
   * The switch on one item's key: numeric keys keep the value's text, autoLoad and
   * ignoreGPanoXMP take what JSON.parse gives for it, string keys take the decoded
   * value; None when decodeURIComponent or JSON.parse throws.
   */
  function ItemPiece(item: string, decode: string -> Option<string>, literal: string -> Option<string>): (r: Option<Piece>)
    ensures r.None? <==> (Classify(OptionName(item)) == Boolean && literal(OptionValue(item)).None?) ||
                         (Classify(OptionName(item)) == Quoted && decode(OptionValue(item)).None?)
    ensures r.Some? ==> r.value.key == OptionName(item)
    ensures r.Some? ==> (r.value.Unknown? <==> Classify(OptionName(item)) == Invalid)
    ensures r.Some? && r.value.Known? ==> (r.value.value.Text? <==> Classify(OptionName(item)) == Quoted)
  {
    var option, value := OptionName(item), OptionValue(item);
    match Classify(option)
    case Numeric => Some(Known(option, Literal(value)))
    case Boolean =>
      (match literal(value)
       case None => None
       case Some(t) => Some(Known(option, Literal(t))))
    case Quoted =>
      (match decode(value)
       case None => None
       case Some(s) => Some(Known(option, Text(s))))
    case Invalid => Some(Unknown(option))
  }

  /** The JSON member text written for a piece; an unknown key gets no value after its colon. */
  function PieceText(p: Piece): string
  {
    match p
    case Known(k, Text(s)) => "\"" + k + "\":\"" + s + "\""
    case Known(k, Literal(t)) => "\"" + k + "\":" + t
    case Unknown(k) => "\"" + k + "\":"
  }

  function Texts(ps: seq<Piece>): (r: seq<string>)
    ensures |r| == |ps| && forall k :: 0 <= k < |ps| ==> r[k] == PieceText(ps[k])
  {
    seq(|ps|, k requires 0 <= k < |ps| => PieceText(ps[k]))
  }

  /** The error reports for the unknown keys, in item order. */
  function Messages(ps: seq<Piece>): seq<string>
    decreases |ps|
  {
    if ps == [] then []
    else
      var last := ps[|ps| - 1];
      Messages(ps[..|ps| - 1]) + (if last.Unknown? then [InvalidParameterMessage + last.key] else [])
  }

  /** The loop over the items: all pieces, or the reports made before the item whose call threw. */
  datatype Walk = Walked(pieces: seq<Piece>) | Stopped(messages: seq<string>)

  function WalkItems(items: seq<string>, decode: string -> Option<string>, literal: string -> Option<string>): Walk
    decreases |items|
  {
    if items == [] then Walked([])
    else match WalkItems(items[..|items| - 1], decode, literal)
      case Stopped(m) => Stopped(m)
      case Walked(ps) =>
        match ItemPiece(items[|items| - 1], decode, literal)
        case None => Stopped(Messages(ps))
        case Some(p) => Walked(ps + [p])
  }

  /** What the JSON-building part of parseURLParameters ends in. */
  datatype QueryOutcome = NoOptions | Threw(messages: seq<string>) | Json(text: string, messages: seq<string>)

  /** The items of the query: the text after the first '?' (up to any second one), cut at '&'. */
  function QueryItems(href: string): seq<string>
  {
    var url := Split(href, '?');
    if |url| > 1 then Split(url[1], '&') else []
  }

  /** The loop over the items, as one value: the object text with the reports, or the reports before a throw. */
  function ItemsOutcome(items: seq<string>, decode: string -> Option<string>, literal: string -> Option<string>): QueryOutcome
  {
    match WalkItems(items, decode, literal)
    case Stopped(m) => Threw(m)
    case Walked(ps) => Json("{" + Join(Texts(ps), ',') + "}", Messages(ps))
  }

  /** The JSON-building part of parseURLParameters, as one value. */
  function UrlOutcome(href: string, decode: string -> Option<string>, literal: string -> Option<string>): QueryOutcome
  {
    if |Split(href, '?')| < 2 then NoOptions else ItemsOutcome(QueryItems(href), decode, literal)
  }

  /**
   * parseURLParameters up to the JSON.parse of the built text: with no '?' there
   * are no options; otherwise the text after the first '?' is cut at '&' and the
   * items are turned into the object text.
   */
  method ParseURLParameters(href: string, decode: string -> Option<string>, literal: string -> Option<string>)
    returns (outcome: QueryOutcome)
    ensures outcome == UrlOutcome(href, decode, literal)
  {
    var url := Split(href, '?');
    url := url[1..];
    if |url| < 1 {
      return NoOptions;
    }
    var items := Split(url[0], '&');
    outcome := JsonFromItems(items, decode, literal);
  }

  /**
   * The loop of parseURLParameters: for each item append `"key":`, the value as its
   * key's class wants it, and a comma unless it is the last item, reporting every
   * unknown key; a throwing decodeURIComponent or JSON.parse ends the loop.
   */
  method JsonFromItems(items: seq<string>, decode: string -> Option<string>, literal: string -> Option<string>)
    returns (outcome: QueryOutcome)
    ensures outcome == ItemsOutcome(items, decode, literal)
  {
    var json := "{";
    var messages: seq<string> := [];
    ghost var ps: seq<Piece> := [];
    var i := 0;
    while i < |items|
      invariant 0 <= i <= |items|
      invariant WalkItems(items[..i], decode, literal) == Walked(ps)
      invariant messages == Messages(ps) && |ps| == i
      invariant json == "{" + Join(Texts(ps), ',') + (if 0 < i < |items| then "," else "")
    {
      var threw, member, report := ItemMember(items[i], decode, literal);
      if threw {
        WalkThrows(items, i, ps, decode, literal);
        return Threw(messages);
      }
      ghost var piece := ItemPiece(items[i], decode, literal).value;
      WalkStep(items, i, ps, piece, decode, literal);
      JsonStep(ps, piece, json, i, |items|);
      messages := messages + report;
      json := json + member;
      if i < |items| - 1 {
        json := json + ",";
      }
      ps := ps + [piece];
      i := i + 1;
    }
    assert items[..i] == items;
    ItemsOutcomeWalked(items, ps, json, decode, literal);
    json := json + "}";
    return Json(json, messages);
  }

  /**
   * When the loop ran through every item, its text (no comma after the last member)
   * closed with `}` is the object of all pieces.
   */
  lemma ItemsOutcomeWalked(items: seq<string>, ps: seq<Piece>, json: string,
                           decode: string -> Option<string>, literal: string -> Option<string>)
    requires WalkItems(items, decode, literal) == Walked(ps)
    requires json == "{" + Join(Texts(ps), ',') + ""
    ensures ItemsOutcome(items, decode, literal) == Json(json + "}", Messages(ps))
  {
    assert json == "{" + Join(Texts(ps), ',');
  }

  /**
   * The switch of the loop body for one item: the member text `"key":value`, the
   * report for an unknown key, or threw when decodeURIComponent or JSON.parse threw.
   */
  method ItemMember(item: string, decode: string -> Option<string>, literal: string -> Option<string>)
    returns (threw: bool, member: string, report: seq<string>)
    ensures threw <==> ItemPiece(item, decode, literal).None?
    ensures !threw ==> member == PieceText(ItemPiece(item, decode, literal).value)
    ensures !threw ==> report == Messages([ItemPiece(item, decode, literal).value])
  {
    var parts := Split(item, '=');
    var option := parts[0];
    var value := if |parts| > 1 then parts[1] else "undefined";
    member := "\"" + option + "\":";
    report := [];
    threw := false;
    match Classify(option)
    case Numeric =>
      member := member + value;
    case Boolean =>
      var parsed := literal(value);
      if parsed.None? {
        return true, member, report;
      }
      member := member + parsed.value;
    case Quoted =>
      var decoded := decode(value);
      if decoded.None? {
        return true, member, report;
      }
      member := member + "\"" + decoded.value + "\"";
    case Invalid =>
      report := [InvalidParameterMessage + option];
  }

  /** An item whose call throws ends the walk with the reports made so far. */
  lemma WalkThrows(items: seq<string>, i: nat, ps: seq<Piece>, decode: string -> Option<string>, literal: string -> Option<string>)
    requires i < |items| && WalkItems(items[..i], decode, literal) == Walked(ps)
    requires ItemPiece(items[i], decode, literal).None?
    ensures WalkItems(items, decode, literal) == Stopped(Messages(ps))
  {
    assert items[..i + 1][..i] == items[..i];
    StoppedPersists(items, i + 1, decode, literal);
  }

  /** An item whose call does not throw adds its piece to the walk and its report, if any, to the reports. */
  lemma WalkStep(items: seq<string>, i: nat, ps: seq<Piece>, p: Piece, decode: string -> Option<string>, literal: string -> Option<string>)
    requires i < |items| && WalkItems(items[..i], decode, literal) == Walked(ps)
    requires ItemPiece(items[i], decode, literal) == Some(p)
    ensures WalkItems(items[..i + 1], decode, literal) == Walked(ps + [p])
    ensures Messages(ps + [p]) == Messages(ps) + Messages([p])
  {
    assert items[..i + 1][..i] == items[..i];
    assert (ps + [p])[..|ps|] == ps;
  }

  /** One more member, and a comma unless it was the last item, keeps the built text the joined members. */
  lemma JsonStep(ps: seq<Piece>, p: Piece, json: string, i: nat, n: nat)
    requires |ps| == i < n
    requires json == "{" + Join(Texts(ps), ',') + (if 0 < i then "," else "")
    ensures json + PieceText(p) + (if i + 1 < n then "," else "") ==
            "{" + Join(Texts(ps + [p]), ',') + (if i + 1 < n then "," else "")
  {
    var t := PieceText(p);
    var joined := Join(Texts(ps), ',');
    TextsAppend(ps, p);
    if i > 0 {
      JoinAppend(Texts(ps), t, ',');
      assert json + t == "{" + (joined + [','] + t);
    } else {
      assert Texts(ps + [p]) == [t];
    }
  }

  lemma TextsAppend(ps: seq<Piece>, p: Piece)
    ensures Texts(ps + [p]) == Texts(ps) + [PieceText(p)]
  {
  }

  /** Once an item's call throws, the rest of the items are never looked at. */
  lemma {:induction false} StoppedPersists(items: seq<string>, n: nat, decode: string -> Option<string>, literal: string -> Option<string>)
    requires n <= |items| && WalkItems(items[..n], decode, literal).Stopped?
    ensures WalkItems(items, decode, literal) == WalkItems(items[..n], decode, literal)
    decreases |items|
  {
    if n < |items| {
      var init := items[..|items| - 1];
      assert init[..n] == items[..n];
      StoppedPersists(init, n, decode, literal);
    } else {
      assert items[..n] == items;
    }
  }

  /** Without a '?' in the address there are no options, and only then. */
  lemma NoOptionsExactly(href: string, decode: string -> Option<string>, literal: string -> Option<string>)
    ensures UrlOutcome(href, decode, literal).NoOptions? <==> '?' !in href
  {
    SplitCount(href, '?');
  }

  /** The walk keeps one piece per item, each the item's own. */
  lemma {:induction false} WalkPieces(items: seq<string>, decode: string -> Option<string>, literal: string -> Option<string>)
    ensures WalkItems(items, decode, literal).Walked? ==>
      var ps := WalkItems(items, decode, literal).pieces;
      |ps| == |items| && forall j :: 0 <= j < |items| ==> ItemPiece(items[j], decode, literal) == Some(ps[j])
    ensures WalkItems(items, decode, literal).Stopped? <==>
      exists j :: 0 <= j < |items| && ItemPiece(items[j], decode, literal).None?
    decreases |items|
  {
    if items != [] {
      var init := items[..|items| - 1];
      WalkPieces(init, decode, literal);
      if WalkItems(init, decode, literal).Stopped? {
        var j :| 0 <= j < |init| && ItemPiece(init[j], decode, literal).None?;
        assert items[j] == init[j];
      } else if WalkItems(items, decode, literal).Walked? {
        var ps0 := WalkItems(init, decode, literal).pieces;
        var ps := WalkItems(items, decode, literal).pieces;
        assert ps == ps0 + [ItemPiece(items[|items| - 1], decode, literal).value];
        forall j | 0 <= j < |items|
          ensures ItemPiece(items[j], decode, literal) == Some(ps[j])
        {
          if j < |init| {
            assert items[j] == init[j] && ps[j] == ps0[j];
          }
        }
      }
    }
  }

  /** A report is made for exactly the unknown keys. */
  lemma {:induction false} MessagesForUnknown(ps: seq<Piece>, m: string)
    ensures m in Messages(ps) <==> exists j :: 0 <= j < |ps| && ps[j].Unknown? && m == InvalidParameterMessage + ps[j].key
    decreases |ps|
  {
    if ps != [] {
      var init := ps[..|ps| - 1];
      MessagesForUnknown(init, m);
      if exists j :: 0 <= j < |init| && init[j].Unknown? && m == InvalidParameterMessage + init[j].key {
        var j :| 0 <= j < |init| && init[j].Unknown? && m == InvalidParameterMessage + init[j].key;
        assert ps[j] == init[j];
      }
      if exists j :: 0 <= j < |ps| && ps[j].Unknown? && m == InvalidParameterMessage + ps[j].key {
        var j :| 0 <= j < |ps| && ps[j].Unknown? && m == InvalidParameterMessage + ps[j].key;
        if j < |init| {
          assert init[j] == ps[j];
        }
      }
    }
  }

  /** No report at all exactly when every key is known. */
  lemma MessagesEmpty(ps: seq<Piece>)
    ensures Messages(ps) == [] <==> forall j :: 0 <= j < |ps| ==> ps[j].Known?
  {
    if Messages(ps) != [] {
      MessagesForUnknown(ps, Messages(ps)[0]);
    }
    if exists j :: 0 <= j < |ps| && ps[j].Unknown? {
      var j :| 0 <= j < |ps| && ps[j].Unknown?;
      MessagesForUnknown(ps, InvalidParameterMessage + ps[j].key);
    }
  }

  /** When no member text holds a comma, the object text splits back into the members. */
  lemma MembersSplitBack(ps: seq<Piece>)
    requires |ps| >= 1
    requires forall k :: 0 <= k < |ps| ==> ',' !in PieceText(ps[k])
    ensures Split(Join(Texts(ps), ','), ',') == Texts(ps)
  {
    SplitJoin(Texts(ps), ',');
  }

  /**
   * The object JSON.parse makes of the members: each known key with its value,
   * a later duplicate replacing an earlier one.
   */
  function ConfigOf(ps: seq<Piece>): Config
    decreases |ps|
  {
    if ps == [] then map[]
    else
      var last := ps[|ps| - 1];
      if last.Known? then ConfigOf(ps[..|ps| - 1])[last.key := last.value] else ConfigOf(ps[..|ps| - 1])
  }

  /** ConfigOf holds a key exactly when a known piece has it, with the value of the last such piece. */
  lemma {:induction false} ConfigOfLast(ps: seq<Piece>, k: string)
    ensures k in ConfigOf(ps) <==> exists j :: 0 <= j < |ps| && ps[j].Known? && ps[j].key == k
    ensures k in ConfigOf(ps) ==> exists j :: (0 <= j < |ps| && ps[j].Known? && ps[j].key == k &&
      ConfigOf(ps)[k] == ps[j].value && forall j' :: j < j' < |ps| ==> ps[j'].key != k || ps[j'].Unknown?)
    decreases |ps|
  {
    if ps != [] {
      var init := ps[..|ps| - 1];
      var last := ps[|ps| - 1];
      ConfigOfLast(init, k);
      if exists j :: 0 <= j < |init| && init[j].Known? && init[j].key == k {
        var j :| 0 <= j < |init| && init[j].Known? && init[j].key == k;
        assert ps[j] == init[j];
      }
      if exists j :: 0 <= j < |ps| && ps[j].Known? && ps[j].key == k {
        var j :| 0 <= j < |ps| && ps[j].Known? && ps[j].key == k;
        if j < |init| {
          assert init[j] == ps[j];
        }
      }
      if !(last.Known? && last.key == k) && k in ConfigOf(ps) {
        var j :| 0 <= j < |init| && init[j].Known? && init[j].key == k &&
          ConfigOf(init)[k] == init[j].value && forall j' :: j < j' < |init| ==> init[j'].key != k || init[j'].Unknown?;
        assert ps[j] == init[j];
        forall j' | j < j' < |ps|
          ensures ps[j'].key != k || ps[j'].Unknown?
        {
          if j' < |init| {
            assert ps[j'] == init[j'];
          }
        }
      }
    }
  }

  /** JavaScript truthiness of a configuration value (see Left out for non-string values). */
  predicate Truthy(v: Value)
  {
    match v
    case Text(s) => s != ""
    case Literal(_) => true
  }

  /** The value as a string. */
  function AsText(v: Value): string
  {
    match v
    case Text(s) => s
    case Literal(t) => t
  }

  /** A truthy tour is copied to config, replacing any config value. */
  function TourAsConfig(c: Config): (r: Config)
    ensures "tour" in c && Truthy(c["tour"]) ==> "config" in r && r["config"] == c["tour"]
    ensures forall k :: k in c && (k != "config" || !("tour" in c && Truthy(c["tour"]))) ==> k in r && r[k] == c[k]
    ensures r.Keys <= c.Keys + {"config"}
  {
    if "tour" in c && Truthy(c["tour"]) then c["config" := c["tour"]] else c
  }

  /**
   * How the page goes on: it stops with the messages shown, JSON.parse throws on the
   * built text (uncaught, so the page stops with nothing more shown), or the parsed
   * configuration names a file to fetch or goes to the viewer.
   */
  datatype Launch =
    | Halted(messages: seq<string>)
    | SyntaxError
    | FetchConfig(config: Config, url: string)
    | ShowViewer(config: Config)

  /** A decoded value that reads back unchanged between two quotes: no quote, backslash or control character. */
  predicate PlainString(s: string)
  {
    forall k :: 0 <= k < |s| ==> s[k] != '"' && s[k] != '\\' && s[k] >= ' '
  }

  /** The text after a member's colon reads as the piece's value on its own; an unknown key has no value. */
  predicate MemberParses(p: Piece, isValue: string -> bool)
  {
    match p
    case Known(_, Text(s)) => PlainString(s)
    case Known(_, Literal(t)) => isValue(t)
    case Unknown(_) => false
  }

  /** Every member of the built text has a value JSON.parse reads on its own. */
  predicate AllMembersParse(ps: seq<Piece>, isValue: string -> bool)
  {
    forall j :: 0 <= j < |ps| ==> MemberParses(ps[j], isValue)
  }

  /** A truthy config makes the page fetch that file; otherwise the viewer starts at once. */
  function Dispatch(c: Config): (r: Launch)
    ensures r.FetchConfig? <==> "config" in c && Truthy(c["config"])
    ensures (r.FetchConfig? || r.ShowViewer?) && r.config == c
  {
    if "config" in c && Truthy(c["config"]) then FetchConfig(c, AsText(c["config"])) else ShowViewer(c)
  }

  /**
   * The whole of parseURLParameters up to the request or the viewer. JSON.parse of
   * the built text fails when a key was unknown (its member has no value) or a
   * member's value text is not a JSON value on its own; otherwise it gives ConfigOf
   * of the pieces.
   */
  function Start(href: string, decode: string -> Option<string>, literal: string -> Option<string>, isValue: string -> bool): (r: Launch)
    ensures !r.Halted? ==> '?' in href
    ensures r.FetchConfig? || r.ShowViewer? ==> "basePath" !in r.config
  {
    match UrlOutcome(href, decode, literal)
    case NoOptions => Halted([NoOptionsMessage])
    case Threw(m) => Halted(m)
    case Json(_, m) =>
      BuiltObjectFacts(href, decode, literal);
      if m != [] then Halted(m)
      else
        var ps := WalkItems(QueryItems(href), decode, literal).pieces;
        if !AllMembersParse(ps, isValue) then SyntaxError
        else Dispatch(TourAsConfig(ConfigOf(ps)))
  }

  /**
   * When the object text was built, the address has a '?', the walk took every item,
   * and the configuration it gives has no basePath (the key is not a URL option).
   */
  lemma BuiltObjectFacts(href: string, decode: string -> Option<string>, literal: string -> Option<string>)
    requires UrlOutcome(href, decode, literal).Json?
    ensures '?' in href
    ensures WalkItems(QueryItems(href), decode, literal).Walked?
    ensures "basePath" !in TourAsConfig(ConfigOf(WalkItems(QueryItems(href), decode, literal).pieces))
  {
    NoOptionsExactly(href, decode, literal);
    var c := ConfigOf(WalkItems(QueryItems(href), decode, literal).pieces);
    assert "basePath" !in c by {
      UrlConfigKeys(QueryItems(href), decode, literal, "basePath");
      assert Classify("basePath") == Invalid;
    }
    assert TourAsConfig(c).Keys <= c.Keys + {"config"};
  }

  /**
   * The page stops with its messages exactly when there is no query, a call threw,
   * or some key was unknown; JSON.parse throws exactly when, short of that, some
   * member's value text does not read as a value on its own.
   */
  lemma StartHalts(href: string, decode: string -> Option<string>, literal: string -> Option<string>, isValue: string -> bool)
    ensures var o := UrlOutcome(href, decode, literal);
      Start(href, decode, literal, isValue).Halted? <==> o.NoOptions? || o.Threw? || o.messages != []
    ensures var o := UrlOutcome(href, decode, literal);
      Start(href, decode, literal, isValue).SyntaxError? <==>
        o.Json? && o.messages == [] && !AllMembersParse(WalkItems(QueryItems(href), decode, literal).pieces, isValue)
    ensures UrlOutcome(href, decode, literal).NoOptions? ==> Start(href, decode, literal, isValue) == Halted([NoOptionsMessage])
    ensures UrlOutcome(href, decode, literal).Json? && UrlOutcome(href, decode, literal).messages != [] ==>
      Start(href, decode, literal, isValue) == Halted(UrlOutcome(href, decode, literal).messages)
  {
  }

  /**
   * A numeric key whose value is not a JSON value on its own (hfov=abc, a bare hfov,
   * hfov=) makes JSON.parse throw, whatever else the query holds.
   */
  lemma BadNumberThrows(href: string, decode: string -> Option<string>, literal: string -> Option<string>, isValue: string -> bool, j: nat)
    requires UrlOutcome(href, decode, literal).Json? && UrlOutcome(href, decode, literal).messages == []
    requires j < |QueryItems(href)| && Classify(OptionName(QueryItems(href)[j])) == Numeric
    requires !isValue(OptionValue(QueryItems(href)[j]))
    ensures Start(href, decode, literal, isValue) == SyntaxError
  {
    var items := QueryItems(href);
    var item := items[j];
    WalkPieces(items, decode, literal);
    var ps := WalkItems(items, decode, literal).pieces;
    assert ItemPiece(item, decode, literal) == Some(Known(OptionName(item), Literal(OptionValue(item))));
    assert ps[j] == Known(OptionName(item), Literal(OptionValue(item)));
    assert !AllMembersParse(ps, isValue) by {
      assert !MemberParses(ps[j], isValue);
    }
    StartHalts(href, decode, literal, isValue);
  }

  /** Every key the URL sets is one the switch knows, and each string key holds a string. */
  lemma {:induction false} UrlConfigKeys(items: seq<string>, decode: string -> Option<string>, literal: string -> Option<string>, k: string)
    requires WalkItems(items, decode, literal).Walked?
    ensures var c := ConfigOf(WalkItems(items, decode, literal).pieces);
      k in c ==> Classify(k) != Invalid && (c[k].Text? <==> Classify(k) == Quoted)
  {
    var ps := WalkItems(items, decode, literal).pieces;
    WalkPieces(items, decode, literal);
    ConfigOfLast(ps, k);
    if k in ConfigOf(ps) {
      var j :| 0 <= j < |ps| && ps[j].Known? && ps[j].key == k && ConfigOf(ps)[k] == ps[j].value;
      assert ItemPiece(items[j], decode, literal) == Some(ps[j]);
    }
  }

  /**
   * A tour given in the address is the file fetched, unless its decoded text is
   * empty, provided every member's value reads on its own.
   */
  lemma TourFetched(href: string, decode: string -> Option<string>, literal: string -> Option<string>, isValue: string -> bool)
    requires UrlOutcome(href, decode, literal).Json? && UrlOutcome(href, decode, literal).messages == []
    requires AllMembersParse(WalkItems(QueryItems(href), decode, literal).pieces, isValue)
    requires "tour" in ConfigOf(WalkItems(QueryItems(href), decode, literal).pieces)
    ensures var tour := ConfigOf(WalkItems(QueryItems(href), decode, literal).pieces)["tour"];
      tour.Text? && PlainString(tour.s) &&
      (tour.s != "" ==> Start(href, decode, literal, isValue).FetchConfig? && Start(href, decode, literal, isValue).url == tour.s)
  {
    var items := QueryItems(href);
    var ps := WalkItems(items, decode, literal).pieces;
    JsonDispatches(href, decode, literal, isValue);
    UrlConfigKeys(items, decode, literal, "tour");
    assert Classify("tour") == Quoted;
    ConfigOfLast(ps, "tour");
    var j :| 0 <= j < |ps| && ps[j].Known? && ps[j].key == "tour" && ConfigOf(ps)["tour"] == ps[j].value;
    assert MemberParses(ps[j], isValue);
  }

  /** A query read without a throw or a report, whose member values all read on their own, dispatches the configuration its pieces build. */
  lemma JsonDispatches(href: string, decode: string -> Option<string>, literal: string -> Option<string>, isValue: string -> bool)
    requires UrlOutcome(href, decode, literal).Json? && UrlOutcome(href, decode, literal).messages == []
    requires AllMembersParse(WalkItems(QueryItems(href), decode, literal).pieces, isValue)
    ensures WalkItems(QueryItems(href), decode, literal).Walked?
    ensures Start(href, decode, literal, isValue) == Dispatch(TourAsConfig(ConfigOf(WalkItems(QueryItems(href), decode, literal).pieces)))
  {
  }

  /** The position of the last c in s, or -1 (String.lastIndexOf). */
  function LastIndexOf(s: string, c: char): (r: int)
    ensures -1 <= r < |s|
    ensures r >= 0 ==> s[r] == c
    ensures forall k :: r < k < |s| ==> s[k] != c
    decreases |s|
  {
    if s == [] then -1
    else if s[|s| - 1] == c then |s| - 1
    else LastIndexOf(s[..|s| - 1], c)
  }

  /** The configuration file's directory: its address up to and including the last '/'. */
  function BasePath(configUrl: string): (b: string)
    ensures b <= configUrl
    ensures b != [] ==> b[|b| - 1] == '/'
  {
    configUrl[..LastIndexOf(configUrl, '/') + 1]
  }

  /** basePath is a prefix of the address that is empty or ends in '/', with no '/' after it. */
  lemma BasePathShape(configUrl: string)
    ensures var b := BasePath(configUrl);
      b <= configUrl &&
      (b == [] <==> '/' !in configUrl) &&
      (b != [] ==> b[|b| - 1] == '/') &&
      '/' !in configUrl[|b|..]
  {
    var b := BasePath(configUrl);
    if '/' in configUrl {
      var k :| 0 <= k < |configUrl| && configUrl[k] == '/';
      assert b != [];
    }
    assert forall k :: 0 <= k < |configUrl[|b|..]| ==> configUrl[|b|..][k] == configUrl[|b| + k];
  }

  /**
   * The merge loop of the request's onload: every key of the fetched map that the
   * URL configuration lacks is copied in; a key the URL set is never overwritten.
   */
  method MergeResponse(configFromURL: Config, responseMap: Config) returns (merged: Config)
    ensures merged.Keys == configFromURL.Keys + responseMap.Keys
    ensures forall k :: k in configFromURL ==> merged[k] == configFromURL[k]
    ensures forall k :: k in responseMap && k !in configFromURL ==> merged[k] == responseMap[k]
  {
    merged := configFromURL;
    var keys := responseMap.Keys;
    ghost var done: set<string> := {};
    while keys != {}
      invariant keys + done == responseMap.Keys && keys !! done
      invariant merged.Keys == configFromURL.Keys + done
      invariant forall k :: k in configFromURL ==> merged[k] == configFromURL[k]
      invariant forall k :: k in done && k !in configFromURL ==> merged[k] == responseMap[k]
      decreases keys
    {
      var key :| key in keys;
      keys := keys - {key};
      done := done + {key};
      if key in configFromURL {
        continue;
      }
      merged := merged[key := responseMap[key]];
    }
  }

  /**
   * The request's onload once the file is parsed: set basePath from the config
   * address, then merge under the URL configuration.
   */
  method ConfigLoaded(configFromURL: Config, configUrl: string, responseMap: Config) returns (merged: Config)
    ensures merged.Keys == configFromURL.Keys + responseMap.Keys + {"basePath"}
    ensures forall k :: k in configFromURL ==> merged[k] == configFromURL[k]
    ensures forall k :: k in responseMap && k !in configFromURL && k != "basePath" ==> merged[k] == responseMap[k]
    ensures "basePath" !in configFromURL ==> merged["basePath"] == Text(BasePath(configUrl))
  {
    var response := responseMap["basePath" := Text(BasePath(configUrl))];
    merged := MergeResponse(configFromURL, response);
  }
}

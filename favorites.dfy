/**
 * The application's output: the favourites file it writes (`write_stages`)
 * and where that file lives (`favorites_file`). The INI document is a map
 * from section name (`None` for the general section) to its key/value map.
 */
module Favorites {
  import opened Wrappers
  import opened Http
  import opened Sync
  import opened Text
  import opened App

  type Properties = map<string, string>
  type Ini = map<Option<string>, Properties>

  const FavoriteStages: Option<string> := Some("FavoriteStages")

  /** `Ini::load_from_file(..).unwrap_or_default()`: the document read, or an empty one. */
  function Loaded(read: Option<Ini>): Ini {
    if read.Some? then read.value else map[]
  }

  /** The `id.to_string()` keys of a list of stages. */
  function IdKeys(stages: seq<Stage>): set<string> {
    set i | 0 <= i < |stages| :: IntToString(stages[i].id)
  }

  /** The distinct ids of a list of stages. */
  function Ids(stages: seq<Stage>): set<i32> {
    set i | 0 <= i < |stages| :: stages[i].id
  }

  /**
   * `write_stages`, up to writing the file: drop the `FavoriteStages`
   * section of the document read, then set `<id> = f` in it for every
   * filtered stage. Other sections are kept as read; the section exists
   * afterwards only if some stage was written.
   */
  method WriteStages(app: RbrSync, read: Option<Ini>) returns (favorites: Ini)
    ensures forall sec :: sec != FavoriteStages ==> (sec in favorites <==> sec in Loaded(read))
    ensures forall sec :: sec != FavoriteStages && sec in favorites ==> favorites[sec] == Loaded(read)[sec]
    ensures FavoriteStages in favorites <==> app.FilteredStages() != []
    ensures FavoriteStages in favorites ==> favorites[FavoriteStages].Keys == IdKeys(app.FilteredStages())
    ensures FavoriteStages in favorites ==> forall k :: k in favorites[FavoriteStages] ==> favorites[FavoriteStages][k] == "f"
  {
    favorites := Loaded(read);
    favorites := favorites - {FavoriteStages};
    favorites := SetFavorites(favorites, app.FilteredStages());
  }

  /** The loop of `write_stages`: `<id> = f` in section `FavoriteStages`, stage after stage. */
  method SetFavorites(doc: Ini, stages: seq<Stage>) returns (favorites: Ini)
    requires FavoriteStages !in doc
    ensures forall sec :: sec != FavoriteStages ==> (sec in favorites <==> sec in doc)
    ensures forall sec :: sec != FavoriteStages && sec in favorites ==> favorites[sec] == doc[sec]
    ensures FavoriteStages in favorites <==> stages != []
    ensures FavoriteStages in favorites ==> favorites[FavoriteStages].Keys == IdKeys(stages)
    ensures FavoriteStages in favorites ==> forall k :: k in favorites[FavoriteStages] ==> favorites[FavoriteStages][k] == "f"
  {
    favorites := doc;
    var i := 0;
    while i < |stages|
      invariant 0 <= i <= |stages|
      invariant forall sec :: sec != FavoriteStages ==> (sec in favorites <==> sec in doc)
      invariant forall sec :: sec != FavoriteStages && sec in favorites ==> favorites[sec] == doc[sec]
      invariant FavoriteStages in favorites <==> i > 0
      invariant FavoriteStages in favorites ==> favorites[FavoriteStages].Keys == IdKeys(stages[..i])
      invariant FavoriteStages in favorites ==> forall k :: k in favorites[FavoriteStages] ==> favorites[FavoriteStages][k] == "f"
    {
      var section: Properties := if FavoriteStages in favorites then favorites[FavoriteStages] else map[];
      favorites := favorites[FavoriteStages := section[IntToString(stages[i].id) := "f"]];
      assert stages[..i + 1] == stages[..i] + [stages[i]];
      IdKeysAppend(stages[..i], stages[i]);
      i := i + 1;
    }
    assert stages[..i] == stages;
  }

  lemma IdKeysAppend(stages: seq<Stage>, stage: Stage)
    ensures IdKeys(stages + [stage]) == IdKeys(stages) + {IntToString(stage.id)}
  {
    var longer := stages + [stage];
    forall key | key in IdKeys(longer) ensures key in IdKeys(stages) + {IntToString(stage.id)} {
      var i :| 0 <= i < |longer| && key == IntToString(longer[i].id);
      if i < |stages| {
        assert longer[i] == stages[i];
      }
    }
    forall key | key in IdKeys(stages) ensures key in IdKeys(longer) {
      var i :| 0 <= i < |stages| && key == IntToString(stages[i].id);
      assert longer[i] == stages[i];
    }
    assert longer[|stages|] == stage;
  }

  /** One key per distinct id: as many keys as distinct ids. */
  lemma {:induction false} OneKeyPerId(stages: seq<Stage>)
    ensures |IdKeys(stages)| == |Ids(stages)|
    ensures forall id :: id in Ids(stages) <==> IntToString(id) in IdKeys(stages)
  {
    assert IdKeys(stages) == set id | id in Ids(stages) :: IntToString(id);
    InjectiveImageSize(Ids(stages));
    forall id | IntToString(id) in IdKeys(stages) ensures id in Ids(stages) {
      var i :| 0 <= i < |stages| && IntToString(stages[i].id) == IntToString(id);
      IntToStringInjective(stages[i].id, id);
    }
  }

  lemma {:induction false} InjectiveImageSize(ids: set<i32>)
    ensures |set id | id in ids :: IntToString(id)| == |ids|
    decreases |ids|
  {
    if ids != {} {
      var x :| x in ids;
      var rest := ids - {x};
      InjectiveImageSize(rest);
      var image := set id | id in ids :: IntToString(id);
      var restImage := set id | id in rest :: IntToString(id);
      assert image == restImage + {IntToString(x)};
      if IntToString(x) in restImage {
        var y :| y in rest && IntToString(y) == IntToString(x);
        IntToStringInjective(x, y);
      }
    }
  }

  const CachePath := "\\rsfdata\\cache\\favorites.ini"

  /**
   * `favorites_file`: on Windows, the install path from the output of
   * `reg query` (the trimmed text after the last `REG_SZ`) followed by the
   * cache path; elsewhere the bare file name.
   */
  function FavoritesFile(windows: bool, regOutput: string): (path: string)
    ensures !windows ==> path == "favorites.ini"
    ensures windows ==> |path| >= |CachePath| && path[|path| - |CachePath|..] == CachePath
  {
    var favPath := if windows then Trim(LastPiece(regOutput, "REG_SZ")) + "\\rsfdata\\cache\\" else "";
    assert windows ==> favPath + "favorites.ini" == Trim(LastPiece(regOutput, "REG_SZ")) + CachePath;
    favPath + "favorites.ini"
  }

  /**
   * On Windows the directory is the slice `regOutput[i..j]`: only blanks
   * follow it, it holds no `REG_SZ`, it neither starts nor ends with a
   * blank, and when `REG_SZ` occurs, its last occurrence ends at `m` with
   * only blanks between it and the directory.
   */
  lemma InstallPathFromRegistry(regOutput: string)
    ensures exists i, j :: 0 <= i <= j <= |regOutput|
              && FavoritesFile(true, regOutput) == regOutput[i..j] + CachePath
              && (forall k :: j <= k < |regOutput| ==> IsWhitespace(regOutput[k]))
              && !Contains(regOutput[i..j], "REG_SZ")
              && (i < j ==> !IsWhitespace(regOutput[i]) && !IsWhitespace(regOutput[j - 1]))
              && (!Contains(regOutput, "REG_SZ") ==> forall k :: 0 <= k < i ==> IsWhitespace(regOutput[k]))
              && (Contains(regOutput, "REG_SZ") ==>
                    exists m :: |"REG_SZ"| <= m <= i
                      && regOutput[m - |"REG_SZ"|..m] == "REG_SZ"
                      && !Contains(regOutput[m..], "REG_SZ")
                      && forall k :: m <= k < i ==> IsWhitespace(regOutput[k]))
  {
    var i, j := TrimmedLastPiece(regOutput, "REG_SZ");
  }

  /** Where `trim()` of the text after the last `sep` sits in `s`. */
  lemma TrimmedLastPiece(s: string, sep: string) returns (i: nat, j: nat)
    requires sep != []
    ensures i <= j <= |s| && Trim(LastPiece(s, sep)) == s[i..j]
    ensures forall k :: j <= k < |s| ==> IsWhitespace(s[k])
    ensures !Contains(s[i..j], sep)
    ensures i < j ==> !IsWhitespace(s[i]) && !IsWhitespace(s[j - 1])
    ensures !Contains(s, sep) ==> forall k :: 0 <= k < i ==> IsWhitespace(s[k])
    ensures Contains(s, sep) ==>
              exists m :: |sep| <= m <= i
                && s[m - |sep|..m] == sep
                && !Contains(s[m..], sep)
                && forall k :: m <= k < i ==> IsWhitespace(s[k])
  {
    LastPieceIsSuffix(s, sep);
    i, j := TrimmedSuffix(s, LastPiece(s, sep), sep);
  }

  /** The same, for any suffix of `s` that the separator delimits as `split(..).last()` does. */
  lemma TrimmedSuffix(s: string, piece: string, sep: string) returns (i: nat, j: nat)
    requires sep != [] && |piece| <= |s| && s[|s| - |piece|..] == piece && !Contains(piece, sep)
    requires !Contains(s, sep) ==> piece == s
    requires Contains(s, sep) ==> |piece| + |sep| <= |s| && s[|s| - |piece| - |sep|..|s| - |piece|] == sep
    ensures i <= j <= |s| && Trim(piece) == s[i..j]
    ensures forall k :: j <= k < |s| ==> IsWhitespace(s[k])
    ensures !Contains(s[i..j], sep)
    ensures i < j ==> !IsWhitespace(s[i]) && !IsWhitespace(s[j - 1])
    ensures !Contains(s, sep) ==> forall k :: 0 <= k < i ==> IsWhitespace(s[k])
    ensures Contains(s, sep) ==>
              exists m :: |sep| <= m <= i
                && s[m - |sep|..m] == sep
                && !Contains(s[m..], sep)
                && forall k :: m <= k < i ==> IsWhitespace(s[k])
  {
    var p := |s| - |piece|;
    var a := TrimFrom(piece);
    var b := TrimTo(piece, a);
    i, j := p + a, p + b;
    SliceOfSuffix(s, piece, a, b);
    NoSeparatorInSlice(piece, a, b, sep);
    assert Trim(piece) == s[i..j];
    if i < j {
      assert s[i] == piece[a] && s[j - 1] == piece[b - 1];
    }
    assert forall k :: j <= k < |s| ==> IsWhitespace(s[k]) by {
      forall k | j <= k < |s| ensures IsWhitespace(s[k]) {
        assert s[k] == piece[k - p];
      }
    }
    assert forall k :: p <= k < i ==> IsWhitespace(s[k]) by {
      forall k | p <= k < i ensures IsWhitespace(s[k]) {
        assert s[k] == piece[k - p];
      }
    }
    if Contains(s, sep) {
      assert s[p..] == piece;
      assert |sep| <= p && s[p - |sep|..p] == sep;
    }
  }

  /** A slice of a suffix of `s` is a slice of `s`, and so are its characters. */
  lemma SliceOfSuffix(s: string, piece: string, a: nat, b: nat)
    requires |piece| <= |s| && s[|s| - |piece|..] == piece && a <= b <= |piece|
    ensures var p := |s| - |piece|;
            && piece[a..b] == s[p + a..p + b]
            && (forall k :: 0 <= k < |piece| ==> piece[k] == s[p + k])
  {
  }

  lemma NoSeparatorInSlice(s: string, a: nat, b: nat, sep: string)
    requires a <= b <= |s| && !Contains(s, sep)
    ensures !Contains(s[a..b], sep)
  {
    forall k | OccursAt(s[a..b], sep, k) ensures false {
      OccursInSlice(s, a, b, sep, k);
    }
  }

  lemma OccursInSlice(s: string, a: nat, b: nat, sep: string, k: int)
    requires a <= b <= |s| && OccursAt(s[a..b], sep, k)
    ensures OccursAt(s, sep, a + k)
  {
    var window := s[a + k..a + k + |sep|];
    forall t | 0 <= t < |sep| ensures window[t] == sep[t] {
      assert sep[t] == s[a..b][k + t];
    }
  }
}

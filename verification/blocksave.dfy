/** The block-code save file: every chain that starts on a StartBlock-layer
    object of the coding area is saved block by block, each block holding
    the next one chained under it, and loading instantiates the chains
    again. The JSON text and its encryption are left out; a save file is its
    parsed record. */
module BlockSave {
  import opened Wrappers
  import opened Geometry
  import opened Text
  import opened Trees

  /** One saved block: its prefab, its position in the coding area, its
      input fields, and the block chained below it. */
  datatype BlockData = BlockData(
    prefabName: string,
    position: Vec2,
    inputs: map<string, string>,
    nextBlock: Option<BlockData>)

  /** The saved chains, one per start block. */
  datatype BlockSaveList = BlockSaveList(blocks: seq<BlockData>)

  const BlockTag := "Block"
  const StartBlockLayer := "StartBlock"

  /** The last child tagged Block, by index. */
  function LastBlockChild(cs: seq<Tree>): (r: Option<nat>)
    ensures r.Some? ==> r.value < |cs| && cs[r.value].tag == BlockTag
    ensures r.Some? ==> forall j | r.value < j < |cs| :: cs[j].tag != BlockTag
    ensures r.None? <==> forall j | 0 <= j < |cs| :: cs[j].tag != BlockTag
  {
    if |cs| == 0 then None
    else if cs[|cs| - 1].tag == BlockTag then Some(|cs| - 1)
    else LastBlockChild(cs[..|cs| - 1])
  }

  /** `SaveBlockChain`: the cleaned name, the local position's x and y, the
      input fields when the block has an input component, and the chain
      below the last Block-tagged child (each such child is saved in turn
      and the last one wins). */
  function SaveBlockChain(b: Tree): (r: BlockData)
    ensures r.prefabName == StripClone(b.name)
    ensures r.position == Vec2(b.local.pos.x, b.local.pos.y)
    ensures r.inputs == b.inputs.GetOr(map[])
    ensures r.nextBlock.None? <==> LastBlockChild(b.children).None?
    ensures r.nextBlock.Some? ==> r.nextBlock.value == SaveBlockChain(b.children[LastBlockChild(b.children).value])
    decreases b
  {
    BlockData(StripClone(b.name), Vec2(b.local.pos.x, b.local.pos.y), b.inputs.GetOr(map[]),
              match LastBlockChild(b.children)
              case None => None
              case Some(i) => Some(SaveBlockChain(b.children[i])))
  }

  /** Does an object of the coding area start a chain. */
  predicate StartsChain(t: Tree)
  {
    Contains(t.layer, StartBlockLayer)
  }

  /** `SaveBlockCode` without the file: the chains under the start blocks of
      the coding area, in sibling order; other blocks are not saved. */
  function SaveBlockCode(cs: seq<Tree>): (r: seq<BlockData>)
    ensures |r| <= |cs|
  {
    if |cs| == 0 then []
    else (if StartsChain(cs[0]) then [SaveBlockChain(cs[0])] else []) + SaveBlockCode(cs[1..])
  }

  /** `LoadInputs` of a block's input component, whose fields are the keys
      of `fields`: each field takes the saved text under its name, a field
      with no saved text keeps its value, and saved names the component
      has no field for are ignored. */
  function LoadInputs(fields: map<string, string>, saved: map<string, string>): (r: map<string, string>)
    ensures r.Keys == fields.Keys
    ensures forall k | k in r && k in saved :: r[k] == saved[k]
    ensures forall k | k in r && k !in saved :: r[k] == fields[k]
  {
    map k | k in fields :: if k in saved then saved[k] else fields[k]
  }

  /** Saved inputs naming exactly the component's fields are loaded as
      they are, so `SaveInputs` after `LoadInputs` gives them back. */
  lemma LoadSavedInputs(fields: map<string, string>, saved: map<string, string>)
    requires saved.Keys == fields.Keys
    ensures LoadInputs(fields, saved) == saved
  {
    var r := LoadInputs(fields, saved);
    assert forall k | k in r :: r[k] == saved[k];
  }

  /** Inputs naming a field the component lacks do not survive a load and
      save: a motor-speed block given an extra name and no speed saves its
      own two fields, the speed at its prefab value. */
  lemma UnknownInputsDropped()
    ensures var fields := map["motor" := "", "speed" := "50"];
      var saved := map["motor" := "A", "extra" := "1"];
      var r := LoadInputs(fields, saved);
      && r == map["motor" := "A", "speed" := "50"]
      && r != saved
  {
    var fields := map["motor" := "", "speed" := "50"];
    var saved := map["motor" := "A", "extra" := "1"];
    var r := LoadInputs(fields, saved);
    assert "extra" !in r;
    assert "motor" in r && "speed" in r;
    assert r.Keys == {"motor", "speed"};
  }

  /** `SpawnBlockChain`: nothing when the prefab is unknown; otherwise the
      prefab instantiated (keeping the clone suffix), tagged Block, placed
      at the saved position with z = 0, the saved inputs loaded into its
      input component, and the next block spawned under it after its own
      children. */
  function SpawnBlockChain(d: BlockData, prefabs: string -> Option<Tree>): (r: Option<Tree>)
    ensures r.None? <==> prefabs(d.prefabName).None?
    ensures r.Some? ==>
      && r.value.tag == BlockTag
      && r.value.local.pos == Vec3(d.position.x, d.position.y, 0.0)
      && r.value.layer == prefabs(d.prefabName).value.layer
      && r.value.name == prefabs(d.prefabName).value.name + CloneSuffix
      && (r.value.inputs.Some? <==> prefabs(d.prefabName).value.inputs.Some?)
      && (r.value.inputs.Some? ==>
            && r.value.inputs.value.Keys == prefabs(d.prefabName).value.inputs.value.Keys
            && forall k | k in r.value.inputs.value && k in d.inputs :: r.value.inputs.value[k] == d.inputs[k])
    decreases d
  {
    match prefabs(d.prefabName)
    case None => None
    case Some(pf) =>
      var next := match d.nextBlock
        case None => []
        case Some(n) => match SpawnBlockChain(n, prefabs) case None => [] case Some(t) => [t];
      Some(pf.(name := pf.name + CloneSuffix,
               tag := BlockTag,
               local := Pose(Vec3(d.position.x, d.position.y, 0.0), pf.local.rot),
               inputs := if pf.inputs.Some? then Some(LoadInputs(pf.inputs.value, d.inputs)) else None,
               children := pf.children + next))
  }

  /** The chains spawned in order, an unknown prefab leaving its chain out. */
  function SpawnAll(ds: seq<BlockData>, prefabs: string -> Option<Tree>): (r: seq<Tree>)
    ensures |r| <= |ds|
  {
    if |ds| == 0 then []
    else match SpawnBlockChain(ds[0], prefabs)
      case None => SpawnAll(ds[1..], prefabs)
      case Some(t) => [t] + SpawnAll(ds[1..], prefabs)
  }

  /** What `LoadBlockCode` leaves: the coding area, and whether the text
      parsed to null, which makes it fail after the area was cleared. */
  datatype Loaded = Loaded(area: Tree, failed: bool)

  /** `LoadBlockCode`: every child of the coding area is removed; a text
      that parses to null then fails, any other spawns each saved chain. */
  function LoadBlockCode(area: Tree, list: Option<BlockSaveList>, prefabs: string -> Option<Tree>): (r: Loaded)
    ensures r.area == area.(children := r.area.children)
    ensures r.failed <==> list.None?
    ensures list.None? ==> r.area.children == []
    ensures list.Some? ==> r.area.children == SpawnAll(list.value.blocks, prefabs)
  {
    match list
    case None => Loaded(area.(children := []), true)
    case Some(l) => Loaded(area.(children := SpawnAll(l.blocks, prefabs)), false)
  }

  /** A prefab library as `Resources.Load` sees it: each prefab is named
      after the key it is loaded by. */
  ghost predicate NamedByKey(prefabs: string -> Option<Tree>)
  {
    forall n :: prefabs(n).Some? ==> prefabs(n).value.name == n
  }

  /** A chain that spawns back to itself: each block's name is clean and
      has a prefab with no Block-tagged children of its own, and its saved
      inputs name exactly the fields of the prefab's input component, or
      are empty when it has none. */
  predicate Restorable(d: BlockData, prefabs: string -> Option<Tree>)
    decreases d
  {
    && Trimmed(d.prefabName) && !Contains(d.prefabName, CloneSuffix)
    && prefabs(d.prefabName).Some?
    && LastBlockChild(prefabs(d.prefabName).value.children).None?
    && (prefabs(d.prefabName).value.inputs.None? ==> d.inputs == map[])
    && (prefabs(d.prefabName).value.inputs.Some? ==> d.inputs.Keys == prefabs(d.prefabName).value.inputs.value.Keys)
    && (d.nextBlock.Some? ==> Restorable(d.nextBlock.value, prefabs))
  }

  /** Spawning a restorable chain and saving it gives the chain back. */
  lemma {:induction false} ChainRoundTrip(d: BlockData, prefabs: string -> Option<Tree>)
    requires NamedByKey(prefabs) && Restorable(d, prefabs)
    ensures SpawnBlockChain(d, prefabs).Some?
    ensures SaveBlockChain(SpawnBlockChain(d, prefabs).value) == d
    decreases d
  {
    var b := SpawnBlockChain(d, prefabs).value;
    SpawnedFields(d, prefabs);
    SpawnedNext(d, prefabs);
    var next := match LastBlockChild(b.children)
      case None => None
      case Some(i) => Some(SaveBlockChain(b.children[i]));
    if d.nextBlock.Some? {
      ChainRoundTrip(d.nextBlock.value, prefabs);
      assert next == d.nextBlock;
    } else {
      assert next == d.nextBlock;
    }
    assert SaveBlockChain(b) == BlockData(d.prefabName, d.position, d.inputs, next);
  }

  /** A spawned block saves back its block's name, position and inputs. */
  lemma SpawnedFields(d: BlockData, prefabs: string -> Option<Tree>)
    requires NamedByKey(prefabs) && Restorable(d, prefabs)
    ensures var b := SpawnBlockChain(d, prefabs).value;
      && StripClone(b.name) == d.prefabName
      && Vec2(b.local.pos.x, b.local.pos.y) == d.position
      && b.inputs.GetOr(map[]) == d.inputs
  {
    var pf := prefabs(d.prefabName).value;
    var b := SpawnBlockChain(d, prefabs).value;
    assert pf.name == d.prefabName;
    CleanNameSurvives(pf.name, d.prefabName);
    assert b.inputs.GetOr(map[]) == d.inputs by {
      if pf.inputs.None? {
        assert d.inputs == map[];
      } else {
        LoadSavedInputs(pf.inputs.value, d.inputs);
      }
    }
  }

  /** The clone suffix comes off a clean prefab name again. */
  lemma CleanNameSurvives(n: string, key: string)
    requires n == key && Trimmed(key) && !Contains(key, CloneSuffix)
    ensures StripClone(n + CloneSuffix) == key
  {
    StripCloneOfCopy(n);
    StripCloneFixed(n);
  }

  /** Under a spawned block the chained block is the last Block-tagged
      child, and there is none when nothing is chained. */
  lemma SpawnedNext(d: BlockData, prefabs: string -> Option<Tree>)
    requires Restorable(d, prefabs)
    ensures var b := SpawnBlockChain(d, prefabs).value;
      && (d.nextBlock.None? ==> LastBlockChild(b.children).None?)
      && (d.nextBlock.Some? ==>
            var k := |prefabs(d.prefabName).value.children|;
            LastBlockChild(b.children) == Some(k) && b.children[k] == SpawnBlockChain(d.nextBlock.value, prefabs).value)
  {
    var pf := prefabs(d.prefabName).value;
    var cs := SpawnBlockChain(d, prefabs).value.children;
    if d.nextBlock.Some? {
      var t := SpawnBlockChain(d.nextBlock.value, prefabs).value;
      assert cs == pf.children + [t];
    } else {
      assert cs == pf.children + [];
      assert cs[..|cs|] == cs;
    }
  }

  /** Saving puts a start block's chain in front of the rest. */
  lemma ConsChains(t: Tree, rest: seq<Tree>)
    requires StartsChain(t)
    ensures SaveBlockCode([t] + rest) == [SaveBlockChain(t)] + SaveBlockCode(rest)
  {
    assert ([t] + rest)[1..] == rest;
  }

  /** A chain that spawns is followed by the spawns of the later chains. */
  lemma SpawnAllCons(d: BlockData, ds: seq<BlockData>, prefabs: string -> Option<Tree>)
    requires SpawnBlockChain(d, prefabs).Some?
    ensures SpawnAll([d] + ds, prefabs) == [SpawnBlockChain(d, prefabs).value] + SpawnAll(ds, prefabs)
  {
    assert ([d] + ds)[1..] == ds;
  }

  /** Loading restorable chains whose first blocks sit on a StartBlock
      layer, then saving the coding area, gives the same chains. */
  lemma {:induction false} ChainsRoundTrip(ds: seq<BlockData>, prefabs: string -> Option<Tree>)
    requires NamedByKey(prefabs)
    requires forall d | d in ds ::
      Restorable(d, prefabs) && Contains(prefabs(d.prefabName).value.layer, StartBlockLayer)
    ensures SaveBlockCode(SpawnAll(ds, prefabs)) == ds
  {
    if |ds| > 0 {
      var d, tail := ds[0], ds[1..];
      assert ds == [d] + tail;
      assert d in ds;
      ChainRoundTrip(d, prefabs);
      assert forall c | c in tail :: c in ds;
      ChainsRoundTrip(tail, prefabs);
      SpawnAllCons(d, tail, prefabs);
      ConsChains(SpawnBlockChain(d, prefabs).value, SpawnAll(tail, prefabs));
    }
  }

  /** The whole file: loading a list of such chains into the coding area
      and saving the area gives the list back. */
  lemma CodeRoundTrip(area: Tree, list: BlockSaveList, prefabs: string -> Option<Tree>)
    requires NamedByKey(prefabs)
    requires forall d | d in list.blocks ::
      Restorable(d, prefabs) && Contains(prefabs(d.prefabName).value.layer, StartBlockLayer)
    ensures var r := LoadBlockCode(area, Some(list), prefabs);
      !r.failed && SaveBlockCode(r.area.children) == list.blocks
  {
    ChainsRoundTrip(list.blocks, prefabs);
  }

  /** A block that is not on a StartBlock layer is not saved, wherever it
      sits among the coding area's children. */
  lemma {:induction false} LooseBlockNotSaved(a: seq<Tree>, loose: Tree, b: seq<Tree>)
    requires !StartsChain(loose)
    ensures SaveBlockCode(a + [loose] + b) == SaveBlockCode(a + b)
    decreases |a|
  {
    if |a| == 0 {
      assert a + [loose] + b == [loose] + b;
      assert ([loose] + b)[1..] == b;
      assert a + b == b;
    } else {
      assert (a + [loose] + b)[1..] == a[1..] + [loose] + b;
      assert (a + b)[1..] == a[1..] + b;
      LooseBlockNotSaved(a[1..], loose, b);
    }
  }
}

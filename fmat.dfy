/** The FMAT object of FMAT.py: a material whose reader fills its tables
    in place, record by record. Each reader is proved to leave exactly the
    table of its loop in FmatRecords (the loop run over the record
    decoders, stored by name or kept as a list), and `ReadFromFres` to
    leave what `ReadMaterial` describes. */
module Fmat {
  import opened Outcome
  import Tables
  import opened FmatRecords
  import opened StructFields

  class Material {
    /** The FRES object the material is read through. */
    const fres: Fres
    var headerOffset: Option<nat>
    /** The decoded header; empty until it has been read. */
    var header: Record
    var name: Option<string>
    var shaderAssign: Record
    var vtxAttrs: seq<string>
    var texAttributeDict: seq<string>
    var shaderOptionDict: seq<string>
    var shaderOptions: map<string, OptionValue>
    /** The `<name>_dict` attributes `_readDicts` sets. */
    var renderInfoDict: Option<seq<string>>
    var samplerDict: Option<seq<string>>
    var matParamDict: Option<seq<string>>
    var userDataDict: Option<seq<string>>
    var renderInfo: map<string, RenderParam>
    var materialParams: map<string, MaterialParam>
    var textureSamplers: map<string, TextureSampler>
    var fragSamplers: map<string, TextureSampler>
    var samplerInfoList: seq<SamplerEntry>

    /** `FMAT(fres)`: nothing read yet. */
    constructor(fres: Fres)
      ensures this.fres == fres && headerOffset == None && name == None
      ensures header == map[] && DictAttrs() == [None, None, None, None]
    {
      this.fres := fres;
      headerOffset := None;
      header := map[];
      name := None;
      shaderAssign := map[];
      vtxAttrs := [];
      texAttributeDict := [];
      shaderOptionDict := [];
      shaderOptions := map[];
      renderInfoDict, samplerDict, matParamDict, userDataDict := None, None, None, None;
      renderInfo := map[];
      materialParams := map[];
      textureSamplers := map[];
      fragSamplers := map[];
      samplerInfoList := [];
    }

    /** The `<name>_dict` attributes, in the order of DictOffsKeys:
        render_info, sampler, mat_param, user_data. */
    function DictAttrs(): seq<Option<seq<string>>>
      reads this`renderInfoDict, this`samplerDict, this`matParamDict, this`userDataDict
    {
      [renderInfoDict, samplerDict, matParamDict, userDataDict]
    }

    /** The state `_readShaderAssign` sets. */
    function AssignState(): AssignData
      reads this`shaderAssign, this`header, this`vtxAttrs, this`texAttributeDict, this`shaderOptionDict, this`shaderOptions
    {
      AssignData(shaderAssign, header, vtxAttrs, texAttributeDict, shaderOptionDict, shaderOptions)
    }

    /** The tables `_readTables` fills; the name is "" until it is set. */
    function TablesState(): TablesData
      reads this`renderInfoDict, this`samplerDict, this`matParamDict, this`userDataDict
      reads this`renderInfo, this`materialParams, this`name
    {
      TablesData(DictAttrs(), renderInfo, materialParams, if name.Some? then name.value else "")
    }

    /** The samplers `ReadSamplers` fills. */
    function SamplersState(): SamplerData
      reads this`textureSamplers, this`fragSamplers, this`samplerInfoList
    {
      SamplerData(textureSamplers, fragSamplers, samplerInfoList)
    }

    /** `readFromFRES(offset)`: the header of the format version, the
        shader assign, the dicts, the render info and the material params
        of the version, the name, the texture samplers and the sampler
        infos, in that order. */
    method ReadFromFres(offset: nat) returns (r: Result<()>)
      modifies this
      ensures headerOffset == Some(offset)
      ensures fres.read(HeaderKind(fres), offset).Err? ==> header == old(header)
      ensures var m := ReadMaterial(fres, offset);
        && (r.Ok? <==> m.Ok?)
        && (r.Err? ==> r.error == m.error)
        && (r.Ok? ==> name.Some? && MaterialData(header, AssignState(), TablesState(), SamplersState()) == m.value)
    {
      headerOffset := Some(offset);
      var h := fres.read(HeaderKind(fres), offset);
      if h.Err? {
        return Err(h.error);
      }
      header := h.value;
      r := ReadAfterHeader();
    }

    /** `readFromFRES` once `self.header` is set: `_readShaderAssign`, then
        the tables and the samplers. */
    method ReadAfterHeader() returns (r: Result<()>)
      modifies this`shaderAssign, this`header, this`vtxAttrs, this`texAttributeDict, this`shaderOptionDict
      modifies this`shaderOptions
      modifies this`renderInfoDict, this`samplerDict, this`matParamDict, this`userDataDict
      modifies this`renderInfo, this`materialParams, this`name
      modifies this`textureSamplers, this`fragSamplers, this`samplerInfoList
      ensures var m := AfterHeader(fres, old(header));
        && (r.Ok? <==> m.Ok?)
        && (r.Err? ==> r.error == m.error)
        && (r.Ok? ==> name.Some? && MaterialData(header, AssignState(), TablesState(), SamplersState()) == m.value)
    {
      ghost var m := AfterHeader(fres, header);
      r := ReadShaderAssign();
      ghost var sa := ShaderAssign(fres, old(header));
      if r.Err? {
        assert m == Err(r.error);
        return;
      }
      assert AssignState() == sa.value;
      r := ReadBody();
      if r.Err? {
        assert m == Err(r.error);
        return;
      }
      assert m == Ok(MaterialData(sa.value.header, sa.value, MaterialBody(fres, sa.value).value.0,
                                  MaterialBody(fres, sa.value).value.1));
    }

    /** The rest of `readFromFRES` once the shader assign is read: the
        tables, then the texture samplers and the sampler infos. */
    method ReadBody() returns (r: Result<()>)
      modifies this`renderInfoDict, this`samplerDict, this`matParamDict, this`userDataDict
      modifies this`renderInfo, this`materialParams, this`name
      modifies this`textureSamplers, this`fragSamplers, this`samplerInfoList
      ensures var b := MaterialBody(fres, AssignState());
        && (r.Ok? <==> b.Ok?)
        && (r.Err? ==> r.error == b.error)
        && (r.Ok? ==> name.Some? && (TablesState(), SamplersState()) == b.value)
    {
      ghost var b := MaterialBody(fres, AssignState());
      r := ReadTables();
      ghost var t := MaterialTables(fres, header);
      if r.Err? {
        assert b == Err(r.error);
        return;
      }
      r := ReadSamplers();
      ghost var s := MaterialSamplers(fres, header, shaderAssign, texAttributeDict, t.value.dicts[1]);
      if r.Err? {
        assert b == Err(r.error);
        return;
      }
      assert b == Ok((t.value, s.value));
    }

    /** `_readDicts`, the render-info and the material-param readers of the
        version, then `self.name = self.header['name']`. */
    method ReadTables() returns (r: Result<()>)
      modifies this`renderInfoDict, this`samplerDict, this`matParamDict, this`userDataDict
      modifies this`renderInfo, this`materialParams, this`name
      ensures var t := MaterialTables(fres, header);
        && (r.Ok? <==> t.Ok?)
        && (r.Err? ==> r.error == t.error)
        && (r.Ok? ==> name.Some? && TablesState() == t.value)
    {
      ghost var t := MaterialTables(fres, header);
      var v10 := IsV10(fres);
      r := ReadDicts();
      if r.Err? {
        assert t == Err(r.error);
        return;
      }
      r := ReadRenderInfo(v10);
      if r.Err? {
        assert t == Err(r.error);
        return;
      }
      r := ReadMaterialParams(v10);
      if r.Err? {
        assert t == Err(r.error);
        return;
      }
      var nm := GetStr(header, Name);
      if nm.Err? {
        assert t == Err(nm.error);
        return Err(nm.error);
      }
      name := Some(nm.value);
      assert t == Ok(TablesData(DictRun(fres, header).items, renderInfo, materialParams, nm.value));
    }

    /** `_readShaderAssign`: the shader assign of the version (from 0.10
        with its ShaderReflection merged into it and into the header), the
        vertex attributes, the two Dicts and the shader options. */
    method ReadShaderAssign() returns (r: Result<()>)
      modifies this`shaderAssign, this`header, this`vtxAttrs, this`texAttributeDict,
               this`shaderOptionDict, this`shaderOptions
      ensures AssignOf(fres, old(header)).Err? ==> shaderAssign == old(shaderAssign) && header == old(header)
      ensures var sa := ShaderAssign(fres, old(header));
        && (r.Ok? <==> sa.Ok?)
        && (r.Err? ==> r.error == sa.error)
        && (r.Ok? ==> AssignState() == sa.value)
    {
      var ah := AssignOf(fres, header);
      if ah.Err? {
        return Err(ah.error);
      }
      shaderAssign, header := ah.value.0, ah.value.1;
      r := ReadVtxAttrs();
      if r.Err? {
        return;
      }
      var d := AttrDicts(fres, shaderAssign, AssignDictKeys(IsV10(fres)));
      if d.Err? {
        return Err(d.error);
      }
      texAttributeDict, shaderOptionDict := d.value.0, d.value.1;
      r := ReadShaderOptions();
    }

    /** The loop filling `vtxAttrs`. */
    method ReadVtxAttrs() returns (r: Result<()>)
      modifies this`vtxAttrs
      ensures var run := VtxRun(fres.file, shaderAssign);
        vtxAttrs == run.items && r == run.outcome
    {
      var n := GetNum(shaderAssign, NumVtxAttrs);
      if n.Err? {
        vtxAttrs := [];
        return Err(n.error);
      }
      var run := Tables.RunSteps(VtxStep(fres.file, shaderAssign), n.value);
      vtxAttrs := run.items;
      r := run.outcome;
    }

    /** The shader-option loops of the version: from 0.10 the boolean
        options then the string options, before it the string options. */
    method ReadShaderOptions() returns (r: Result<()>)
      modifies this`shaderOptions
      ensures var run := OptionRun(IsV10(fres), fres.file, shaderAssign, shaderOptionDict);
        shaderOptions == Tables.Named(run.items) && r == run.outcome
    {
      shaderOptions := map[];
      ghost var run := OptionRun(IsV10(fres), fres.file, shaderAssign, shaderOptionDict);
      if IsV10(fres) {
        var k := BoolKeys(fres.file, shaderAssign);
        if k.Err? {
          return Err(k.error);
        }
        var boolStep := BoolOptStep(shaderOptionDict, k.value.0);
        ghost var b := Tables.Prefix(boolStep, k.value.1);
        r := StoreOptions(boolStep, k.value.1, []);
        assert [] + b.items == b.items;
        if r.Err? {
          assert run == b;
          return;
        }
        var n := StrCount(true, shaderAssign);
        if n.Err? {
          assert run == Tables.Run(b.items, Err(n.error));
          return Err(n.error);
        }
        var strStep := StrOptStep(fres.file, shaderAssign, shaderOptionDict, true);
        ghost var p := Tables.Prefix(strStep, n.value);
        r := StoreOptions(strStep, n.value, b.items);
        assert run == Tables.Run(b.items + p.items, p.outcome);
      } else {
        var n := StrCount(false, shaderAssign);
        if n.Err? {
          return Err(n.error);
        }
        var strStep := StrOptStep(fres.file, shaderAssign, shaderOptionDict, false);
        ghost var p := Tables.Prefix(strStep, n.value);
        r := StoreOptions(strStep, n.value, []);
        assert [] + p.items == p.items;
        assert run == p;
      }
    }

    /** One options loop: option i is decoded by step and stored under its
        name unless that name is empty; the options stored before it came
        from prior. */
    method StoreOptions(step: nat -> Result<(string, OptionValue)>, n: nat, ghost prior: seq<(string, OptionValue)>)
      returns (r: Result<()>)
      requires shaderOptions == Tables.Named(prior)
      modifies this`shaderOptions
      ensures shaderOptions == Tables.Named(prior + Tables.Prefix(step, n).items)
      ensures r == Tables.Prefix(step, n).outcome
    {
      var i := 0;
      ghost var items := [];
      assert prior + items == prior;
      while i < n
        invariant i <= n && Tables.Prefix(step, i) == Tables.Run(items, Ok(()))
        invariant shaderOptions == Tables.Named(prior + items)
      {
        Tables.PrefixStep(step, i);
        var x := step(i);
        if x.Err? {
          Tables.PrefixFails(step, i, n);
          return Err(x.error);
        }
        Tables.NamedStep(prior, items, x.value);
        if x.value.0 != "" {
          shaderOptions := shaderOptions[x.value.0 := x.value.1];
        }
        items := items + [x.value];
        i := i + 1;
      }
      r := Ok(());
    }

    /** `_readDicts`: `<name>_dict` for each of the four names in order. */
    method ReadDicts() returns (r: Result<()>)
      modifies this`renderInfoDict, this`samplerDict, this`matParamDict, this`userDataDict
      ensures var run := DictRun(fres, header);
        DictAttrs() == run.items + old(DictAttrs())[|run.items|..] && r == run.outcome
    {
      r := StoreDicts(DictStep(fres, header));
    }

    /** The `_readDicts` loop: dict i decoded by step is set as the
        i-th `<name>_dict` attribute. */
    method StoreDicts(step: nat -> Result<Option<seq<string>>>) returns (r: Result<()>)
      modifies this`renderInfoDict, this`samplerDict, this`matParamDict, this`userDataDict
      ensures var run := Tables.Prefix(step, |DictOffsKeys|);
        DictAttrs() == run.items + old(DictAttrs())[|run.items|..] && r == run.outcome
    {
      var i := 0;
      ghost var items := [];
      ghost var before := DictAttrs();
      while i < |DictOffsKeys|
        invariant i <= |DictOffsKeys| && Tables.Prefix(step, i) == Tables.Run(items, Ok(()))
        invariant DictAttrs() == items + before[i..]
      {
        Tables.PrefixStep(step, i);
        var x := step(i);
        if x.Err? {
          Tables.PrefixFails(step, i, |DictOffsKeys|);
          return Err(x.error);
        }
        SetDictAttr(i, x.value);
        Tables.SpliceStep(items, before[i..], x.value);
        assert before[i..][1..] == before[i + 1..];
        items := items + [x.value];
        i := i + 1;
      }
      r := Ok(());
    }

    /** `setattr(self, name + '_dict', d)` for the i-th name. */
    method SetDictAttr(i: nat, d: Option<seq<string>>)
      requires i < |DictOffsKeys|
      modifies this`renderInfoDict, this`samplerDict, this`matParamDict, this`userDataDict
      ensures DictAttrs() == old(DictAttrs())[i := d]
    {
      if i == 0 {
        renderInfoDict := d;
      } else if i == 1 {
        samplerDict := d;
      } else if i == 2 {
        matParamDict := d;
      } else {
        userDataDict := d;
      }
    }

    /** `_readRenderInfo` and `_readRenderInfo10`: `_readInfo` for each
        render-info record of the version. */
    method ReadRenderInfo(v10: bool) returns (r: Result<()>)
      modifies this`renderInfo
      ensures var run := RenderRun(v10, fres.file, header);
        renderInfo == Tables.Table(run.items) && r == run.outcome
    {
      renderInfo := map[];
      var keys := RenderKeys(v10, header);
      if keys.Err? {
        return Err(keys.error);
      }
      var k := keys.value;
      var step := RenderStep(v10, fres.file, k);
      var i := 0;
      ghost var items := [];
      while i < k.4
        invariant i <= k.4 && Tables.Prefix(step, i) == Tables.Run(items, Ok(()))
        invariant renderInfo == Tables.Table(items)
      {
        Tables.PrefixStep(step, i);
        r := ReadRenderRecord(v10, k, i);
        if r.Err? {
          Tables.PrefixFails(step, i, k.4);
          return;
        }
        Tables.TableAppend(items, step(i).value);
        items := items + [step(i).value];
        i := i + 1;
      }
      r := Ok(());
    }

    /** One pass of the render-info loop: record i's header read from the
        table of the version, then its values with `_readInfo`. */
    method ReadRenderRecord(v10: bool, k: (nat, nat, nat, nat, nat), i: nat) returns (r: Result<()>)
      modifies this`renderInfo
      ensures var e := RenderStep(v10, fres.file, k)(i);
        && (r.Ok? <==> e.Ok?)
        && (r.Err? ==> r.error == e.error)
        && (e.Ok? ==> renderInfo == old(renderInfo)[e.value.0 := e.value.1])
        && (e.Err? ==> renderInfo == old(renderInfo))
    {
      var h := if v10 then RenderHead10(fres.file, k.0, k.2, k.3, i) else RenderHead0(fres.file, k.0, i);
      if h.Err? {
        return Err(h.error);
      }
      var valBase := if v10 then k.1 else 0;
      r := ReadInfo(v10, h.value.name, h.value.typ, h.value.offs, h.value.cnt, valBase);
    }

    /** `_readInfo`: the param's cnt values read from base + offs, stored
        under its name once all are read. */
    method ReadInfo(v10: bool, name: string, typ: nat, offs: nat, cnt: nat, base: nat) returns (r: Result<()>)
      modifies this`renderInfo
      ensures var p := Info(fres.file, v10, name, typ, offs, cnt, base);
        && (r.Ok? <==> p.Ok?)
        && (r.Err? ==> r.error == p.error)
        && (p.Ok? ==> renderInfo == old(renderInfo)[name := p.value])
        && (p.Err? ==> renderInfo == old(renderInfo))
    {
      if typ >= 3 {
        return Err(BadIndex(typ));
      }
      var run := Tables.RunSteps(InfoStep(fres.file, v10, typ, base + offs), cnt);
      if run.outcome.Err? {
        return Err(run.outcome.error);
      }
      renderInfo := renderInfo[name := RenderParam(name, cnt, TypeName(v10, typ), run.items)];
      r := Ok(());
    }

    /** `_readMaterialParams` and `_readMaterialParams10`: each param record
        of the version stored under its name. */
    method ReadMaterialParams(v10: bool) returns (r: Result<()>)
      modifies this`materialParams
      ensures var run := ParamRun(v10, fres.file, header);
        materialParams == Tables.Table(run.items) && r == run.outcome
    {
      var keys := ParamKeys(header);
      if keys.Err? {
        materialParams := map[];
        return Err(keys.error);
      }
      var k := keys.value;
      var run, t := Tables.CollectTable(ParamStep(v10, fres.file, k.0, k.1), k.2);
      materialParams := t;
      r := run.outcome;
    }

    /** `_readTextureSamplers` then `_readSamplerInfoArray`. */
    method ReadSamplers() returns (r: Result<()>)
      modifies this`textureSamplers, this`fragSamplers, this`samplerInfoList
      ensures var s := MaterialSamplers(fres, header, shaderAssign, texAttributeDict, samplerDict);
        && (r.Ok? <==> s.Ok?)
        && (r.Err? ==> r.error == s.error)
        && (r.Ok? ==> SamplersState() == s.value)
    {
      r := ReadTextureSamplers();
      if r.Err? {
        return;
      }
      r := ReadSamplerInfoArray();
    }

    /** `_readTextureSamplers`: the texture references by sampler name, then
        the fragment samplers bound to them. */
    method ReadTextureSamplers() returns (r: Result<()>)
      modifies this`textureSamplers, this`fragSamplers
      ensures var tex := TexRefRun(fres.file, header, samplerDict);
        && textureSamplers == Tables.Table(tex.items)
        && (tex.outcome.Err? ==> r == tex.outcome)
        && (tex.outcome.Ok? ==>
              var frag := FragRun(fres.file, shaderAssign, IsV10(fres), Some(texAttributeDict), textureSamplers);
              fragSamplers == Tables.Table(frag.items) && r == frag.outcome)
    {
      r := ReadTextureRefs();
      if r.Err? {
        return;
      }
      r := ReadFragSamplers();
    }

    /** The loop filling `textureSamplers`. */
    method ReadTextureRefs() returns (r: Result<()>)
      modifies this`textureSamplers
      ensures var run := TexRefRun(fres.file, header, samplerDict);
        textureSamplers == Tables.Table(run.items) && r == run.outcome
    {
      var n := GetNum(header, TexRefCnt);
      if n.Err? {
        textureSamplers := map[];
        return Err(n.error);
      }
      var run, t := Tables.CollectTable(TexRefStep(fres.file, header, samplerDict), n.value);
      textureSamplers := t;
      r := run.outcome;
    }

    /** The loop filling `fragSamplers`. */
    method ReadFragSamplers() returns (r: Result<()>)
      modifies this`fragSamplers
      ensures var run := FragRun(fres.file, shaderAssign, IsV10(fres), Some(texAttributeDict), textureSamplers);
        fragSamplers == Tables.Table(run.items) && r == run.outcome
    {
      var n := GetNum(shaderAssign, NumTexAttrs);
      if n.Err? {
        fragSamplers := map[];
        return Err(n.error);
      }
      var run, t := Tables.CollectTable(FragStep(fres.file, shaderAssign, IsV10(fres), Some(texAttributeDict), textureSamplers), n.value);
      fragSamplers := t;
      r := run.outcome;
    }

    /** `_readSamplerInfoArray`: the sampler infos in index order. */
    method ReadSamplerInfoArray() returns (r: Result<()>)
      modifies this`samplerInfoList
      ensures var run := SamplerRun(fres, header);
        samplerInfoList == run.items && r == run.outcome
    {
      var n := GetNum(header, SamplerCnt);
      if n.Err? {
        samplerInfoList := [];
        return Err(n.error);
      }
      var run := Tables.RunSteps(SamplerStep(fres, header), n.value);
      samplerInfoList := run.items;
      r := run.outcome;
    }
  }
}

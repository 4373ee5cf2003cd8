/** The names of the BinaryStruct fields the material reader looks up, in
    the Header/Header10, ShaderAssign/ShaderAssign10 and ShaderReflection
    layouts of FMAT.py. A field name is a constructor here rather than a
    string: two names are equal exactly when they are the same field. */
module StructFields {
  datatype Key =
    // Header and Header10
    | Name | RenderInfoOffs | RenderInfoDictOffs | ShaderAssignOffs | TexRefArrayOffs
    | SamplerInfoOffs | SamplerDictOffs | MatParamArrayOffs | MatParamDictOffs | MatParamDataOffs
    | UserDataDictOffs | SamplerSlotOffs | TexSlotOffs | RenderInfoCnt | TexRefCnt | SamplerCnt
    | MatParamCnt | RenderInfoValueOffs | RenderInfoCntOffs | RenderInfoOffOffs
    // ShaderAssign and ShaderAssign10
    | Name2 | VtxAttrNames | VtxAttrDict | TexAttrNames | TexAttrDict | ShaderOptionVals
    | ShaderOptionDict | NumVtxAttrs | NumTexAttrs | NumShaderOptions | ShaderRefl | TexAttrIndx
    | BoolShaderOptionVals | NumBoolShaderOptions
    // ShaderReflection
    | TexAttrDictOffs | ShaderOptionDictOffs
}

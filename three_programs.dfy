/**
 * The WebGL renderer's shader-program cache in the vendored Three.js
 * (src/js/Three.js, buildProgram): programs are keyed by a code string built from
 * the shader identity and the material parameters, and a program is compiled
 * only for a code string not seen before.
 */
module ThreePrograms {
  import opened Wrappers
  import opened Strings

  /** One entry of _programs: a compiled program handle and the code it was built for. */
  datatype ProgramEntry = ProgramEntry(program: nat, code: string)

  /** The chunks of the code string: the shader id, or both shader sources, then each parameter's name and value. */
  function Chunks(shaderID: string, fragmentShader: string, vertexShader: string,
                  parameters: seq<(string, string)>): (c: seq<string>)
    ensures |c| == (if shaderID != "" then 1 else 2) + 2 * |parameters|
    decreases |parameters|
  {
    if parameters == [] then
      (if shaderID != "" then [shaderID] else [fragmentShader, vertexShader])
    else
      var last := parameters[|parameters| - 1];
      Chunks(shaderID, fragmentShader, vertexShader, parameters[..|parameters| - 1]) + [last.0, last.1]
  }

  /** chunks.join(): the chunks separated by commas. */
  function Code(shaderID: string, fragmentShader: string, vertexShader: string,
                parameters: seq<(string, string)>): string
  {
    Join(Chunks(shaderID, fragmentShader, vertexShader, parameters), ',')
  }

  /** When no chunk contains a comma, the code string gives the chunks back. */
  lemma CodeDeterminesChunks(shaderID: string, fragmentShader: string, vertexShader: string,
                             parameters: seq<(string, string)>)
    requires forall k :: 0 <= k < |Chunks(shaderID, fragmentShader, vertexShader, parameters)| ==>
      ',' !in Chunks(shaderID, fragmentShader, vertexShader, parameters)[k]
    ensures Split(Code(shaderID, fragmentShader, vertexShader, parameters), ',') ==
            Chunks(shaderID, fragmentShader, vertexShader, parameters)
  {
    SplitJoin(Chunks(shaderID, fragmentShader, vertexShader, parameters), ',');
  }

  /** The first entry compiled for code, if any. */
  function FindCode(programs: seq<ProgramEntry>, code: string): (r: Option<nat>)
    ensures r.None? <==> forall k :: 0 <= k < |programs| ==> programs[k].code != code
    ensures r.Some? ==>
      r.value < |programs| && programs[r.value].code == code &&
      forall k :: 0 <= k < r.value ==> programs[k].code != code
    decreases |programs|
  {
    if programs == [] then None
    else if programs[0].code == code then Some(0)
    else match FindCode(programs[1..], code)
      case None => None
      case Some(k) => Some(k + 1)
  }

  /** No two entries share a code string. */
  predicate DistinctCodes(programs: seq<ProgramEntry>)
  {
    forall i, j :: 0 <= i < j < |programs| ==> programs[i].code != programs[j].code
  }

  class ProgramCache {
    /** _programs. */
    var programs: seq<ProgramEntry>

    constructor ()
      ensures programs == []
    {
      programs := [];
    }

    /**
     * The lookup-or-compile step of buildProgram: the program stored for an equal
     * code string is returned and the cache is left alone; otherwise newProgram
     * (what _gl.createProgram hands out) is stored under code and returned. Either
     * way the cache afterwards maps code to the returned program, and distinct
     * code strings stay distinct.
     */
    method BuildProgram(code: string, newProgram: nat) returns (program: nat)
      modifies this
      ensures DistinctCodes(old(programs)) ==> DistinctCodes(programs)
      ensures match FindCode(old(programs), code)
        case Some(k) => program == old(programs)[k].program && programs == old(programs)
        case None => program == newProgram && programs == old(programs) + [ProgramEntry(newProgram, code)]
      ensures FindCode(programs, code).Some? && programs[FindCode(programs, code).value].program == program
    {
      var p := 0;
      while p < |programs|
        invariant 0 <= p <= |programs|
        invariant forall k :: 0 <= k < p ==> programs[k].code != code
      {
        if programs[p].code == code {
          return programs[p].program;
        }
        p := p + 1;
      }
      programs := programs + [ProgramEntry(newProgram, code)];
      program := newProgram;
      assert programs[|programs| - 1].code == code;
      assert FindCode(programs, code).value == |programs| - 1;
    }
  }
}

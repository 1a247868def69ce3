/** The part of RenderSettings that the Editor copy of the tool overrides while it captures. */
module Lighting {
  /** UnityEngine.Rendering.AmbientMode */
  datatype AmbientMode = Skybox | Trilight | Flat | Custom

  datatype Color = Color(r: real, g: real, b: real, a: real)

  const White := Color(1.0, 1.0, 1.0, 1.0)

  /** Color * float: all four channels, alpha included, are scaled. */
  function Scale(c: Color, k: real): Color
  {
    Color(c.r * k, c.g * k, c.b * k, c.a * k)
  }

  datatype Ambient = Ambient(mode: AmbientMode, light: Color)

  /** The flat ambient light used during the capture: Color.white * 0.7f. */
  const CaptureAmbient := Ambient(Flat, Scale(White, 0.7))

  /** The global RenderSettings, as far as ambient lighting goes. */
  class RenderSettings {
    var ambientMode: AmbientMode
    var ambientLight: Color

    constructor (mode: AmbientMode, light: Color)
      ensures ambientMode == mode && ambientLight == light
    {
      ambientMode := mode;
      ambientLight := light;
    }

    function Current(): Ambient
      reads this
    {
      Ambient(ambientMode, ambientLight)
    }
  }
}

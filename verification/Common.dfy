module Common {
  datatype Option<+T> = None | Some(value: T)

  function Min(a: int, b: int): int { if a <= b then a else b }
  function Max(a: int, b: int): int { if a >= b then a else b }
}

module Providers {
  datatype Provider = Replicate | Gemini | Pollinations | Picsum | Artic | Comfyui | Mock
}

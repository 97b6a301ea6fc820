// `Number.MAX_SAFE_INTEGER` of ECMAScript.
module SafeIntegers {
  const MAX_SAFE_INTEGER := 0x1F_FFFF_FFFF_FFFF
}

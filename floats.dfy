/**
 * The decimal text of IEEE-754 values, which the model does not define: Rust's `Display` for
 * `f32`/`f64` and `str::parse::<f32>()`/`::<f64>()` are supplied as functions over bit patterns.
 */
module Floats {
  import opened Ints

  datatype FloatText = FloatText(
    formatSingle: u32 -> string,
    formatDouble: u64 -> string,
    parseSingle: string -> u32,
    parseDouble: string -> u64)
}
